/**
  Filling a root under construction with pages, as both image loaders do: the pages
  recorded so far are exactly what the root maps beyond what it mapped at the start.
  `m0` is memory when the root was created, `b` memory when loading began.
 */
module Loading {
  import opened Prelude
  import opened Pmm
  import opened PageTables
  import opened Trees
  import opened Paging
  import opened Teardown
  import opened Cloning
  import opened CreateRoot
  import opened Fork
  import opened Isolation
  import opened Provenance

  /** A page-aligned address of the user range below 512 GiB. */
  predicate PageOk(v: nat) {
    v % 0x1000 == 0 && USER_CODE_ADDR <= v < 0x80_0000_0000
  }

  lemma PagePath(v: nat)
    requires PageOk(v)
    ensures UserPage(Indices(v)) && PathAddr(Indices(v)) == v
  {
    IndicesInverse(v);
  }

  lemma PageDistinct(v: nat, w: nat)
    requires PageOk(v) && PageOk(w) && v != w
    ensures Indices(v) != Indices(w)
  {
    PagePath(v);
    PagePath(w);
  }

  /** All bytes of a page share its index path. */
  lemma SamePage(v: nat, o: nat)
    requires v % 0x1000 == 0 && o < 0x1000
    ensures Indices(v + o) == Indices(v)
  {
    assert (v + o) / 0x1000 == v / 0x1000;
    DivDiv(v);
    DivDiv(v + o);
    DivDivTop(v);
    DivDivTop(v + o);
  }

  // ----- What the root maps ---------------------------------------------------

  function Paths(ps: seq<LoadedPage>): set<Path> {
    set a | 0 <= a < |ps| :: Indices(ps[a].vaddr)
  }

  /** Page `x` is mapped read-write on its frame, and was not mapped at the start. */
  ghost predicate Tracked(b: Memory, mem: Memory, r: nat, x: LoadedPage) {
    && PageOk(x.vaddr) && Lookup(b, r, Indices(x.vaddr)) == None
    && Lookup(mem, r, Indices(x.vaddr)) == Some(Mapping(x.frame, PAGE_USER_RW))
  }

  /** The root maps the pages `ps`, all different, and otherwise what it mapped at the start. */
  ghost predicate Tracks(b: Memory, mem: Memory, r: nat, ps: seq<LoadedPage>) {
    && (forall a :: 0 <= a < |ps| ==> Tracked(b, mem, r, ps[a]))
    && (forall a, c :: 0 <= a < c < |ps| ==> ps[a].vaddr != ps[c].vaddr)
    && SameLookups(b, mem, r, Paths(ps))
  }

  ghost predicate NoGiants(mem: Memory, r: nat) {
    forall i: Idx :: !Giant(mem, r, i)
  }

  /** State of a load: a root under construction that tracks `ps`, with `hand` allocated and not yet mapped. */
  ghost predicate LoadState(m0: Memory, b: Memory, s: Sys, r: nat, pool: set<nat>, ps: seq<LoadedPage>,
                            hand: set<nat>) {
    Building(m0, s, r, pool, hand) && Tracks(b, s.mem, r, ps) && NoGiants(s.mem, r)
  }

  /** Tracked pages sit on frames the root owns, one each. */
  lemma TrackedFrame(m0: Memory, b: Memory, s: Sys, r: nat, pool: set<nat>, ps: seq<LoadedPage>, hand: set<nat>, a: nat)
    requires LoadState(m0, b, s, r, pool, ps, hand) && a < |ps|
    ensures ps[a].frame in s.own && s.own[ps[a].frame].Leaf? && ps[a].frame in pool && ps[a].frame !in s.free
    ensures ps[a].frame !in hand
    ensures forall c :: 0 <= c < |ps| && c != a ==> ps[c].frame != ps[a].frame
  {
    hide Building, Lookup, SameLookups, Indices;
    assert Tracked(b, s.mem, r, ps[a]);
    PagePath(ps[a].vaddr);
    OwnedPage(m0, s, r, pool, hand, Indices(ps[a].vaddr));
    HandApart(m0, s, r, pool, hand, ps[a].frame);
    forall c | 0 <= c < |ps| && c != a ensures ps[c].frame != ps[a].frame {
      assert Tracked(b, s.mem, r, ps[c]);
      PagePath(ps[c].vaddr);
      PageDistinct(ps[a].vaddr, ps[c].vaddr);
      OwnedPage(m0, s, r, pool, hand, Indices(ps[c].vaddr));
    }
  }

  lemma HandApart(m0: Memory, s: Sys, r: nat, pool: set<nat>, hand: set<nat>, f: nat)
    requires Building(m0, s, r, pool, hand) && f in s.own
    ensures f !in hand
  {
  }

  // ----- Mapping a page -------------------------------------------------------

  lemma FreshPage(b: Memory, mem: Memory, r: nat, ps: seq<LoadedPage>, v: nat)
    requires Tracks(b, mem, r, ps) && PageOk(v) && Lookup(mem, r, Indices(v)) == None
    ensures Lookup(b, r, Indices(v)) == None && forall a :: 0 <= a < |ps| ==> ps[a].vaddr != v
  {
    hide Lookup, Indices;
    forall a | 0 <= a < |ps| ensures ps[a].vaddr != v && Indices(ps[a].vaddr) != Indices(v) {
      assert Tracked(b, mem, r, ps[a]);
    }
    assert Indices(v) !in Paths(ps);
  }

  lemma AddTracked(b: Memory, mem: Memory, mem': Memory, r: nat, ps: seq<LoadedPage>, x: LoadedPage)
    requires Tracks(b, mem, r, ps) && PageOk(x.vaddr) && Lookup(mem, r, Indices(x.vaddr)) == None
    requires SameLookups(mem, mem', r, {Indices(x.vaddr)})
    requires Lookup(mem', r, Indices(x.vaddr)) == Some(Mapping(x.frame, PAGE_USER_RW))
    ensures Tracks(b, mem', r, ps + [x])
  {
    hide Lookup, Indices;
    FreshPage(b, mem, r, ps, x.vaddr);
    var ps' := ps + [x];
    forall a | 0 <= a < |ps'| ensures Tracked(b, mem', r, ps'[a]) {
      if a < |ps| {
        assert Tracked(b, mem, r, ps[a]);
        PageDistinct(ps[a].vaddr, x.vaddr);
      }
    }
    forall p: Path | p !in Paths(ps') ensures Lookup(mem', r, p) == Lookup(b, r, p) {
      assert Indices(ps'[|ps|].vaddr) in Paths(ps');
      PathsGrow(ps, x, p);
    }
  }

  lemma PathsGrow(ps: seq<LoadedPage>, x: LoadedPage, p: Path)
    ensures p in Paths(ps + [x]) <==> p in Paths(ps) || p == Indices(x.vaddr)
  {
    hide Indices;
    if p in Paths(ps) {
      var a :| 0 <= a < |ps| && p == Indices(ps[a].vaddr);
      assert (ps + [x])[a] == ps[a];
    }
    assert (ps + [x])[|ps|] == x;
  }

  /** A mapping attempt with the frame in hand. */
  lemma MapTracks(m0: Memory, b: Memory, s: Sys, s': Sys, r: nat, pool: set<nat>, ps: seq<LoadedPage>, x: LoadedPage,
                  ok: bool)
    requires LoadState(m0, b, s, r, pool, ps, {x.frame}) && PageOk(x.vaddr)
    requires Lookup(s.mem, r, Indices(x.vaddr)) == None
    requires MapStep(s, s', r, pool, Indices(x.vaddr), x.frame, PAGE_USER_RW, ok)
    ensures LoadState(m0, b, s', r, pool, if ok then ps + [x] else ps, if ok then {} else {x.frame})
    ensures forall a :: 0 <= a < |ps| ==> Get(s'.mem, ps[a].frame) == Get(s.mem, ps[a].frame)
    ensures Get(s'.mem, x.frame) == Get(s.mem, x.frame)
  {
    hide Building, Ok, Lookup, Indices, Missing, IsScratch, HugeUser, Giant;
    MapBuilding(m0, s, s', r, pool, Indices(x.vaddr), x.frame, PAGE_USER_RW, ok);
    if ok {
      AddTracked(b, s.mem, s'.mem, r, ps, x);
    } else {
      SameTracks(b, s.mem, s'.mem, r, ps);
    }
    HandData(m0, s, r, pool, x.frame);
    forall a | 0 <= a < |ps| ensures Get(s'.mem, ps[a].frame) == Get(s.mem, ps[a].frame) {
      TrackedFrame(m0, b, s, r, pool, ps, {x.frame}, a);
    }
  }

  lemma HandData(m0: Memory, s: Sys, r: nat, pool: set<nat>, g: nat)
    requires Building(m0, s, r, pool, {g})
    ensures g !in s.free && g !in s.own && g in pool
  {
  }

  lemma SameTracks(b: Memory, mem: Memory, mem': Memory, r: nat, ps: seq<LoadedPage>)
    requires Tracks(b, mem, r, ps) && SameLookups(mem, mem', r, {})
    ensures Tracks(b, mem', r, ps)
  {
    hide Lookup, Indices;
    forall a | 0 <= a < |ps| ensures Tracked(b, mem', r, ps[a]) {
      assert Tracked(b, mem, r, ps[a]);
    }
    forall p: Path | p !in Paths(ps) ensures Lookup(mem', r, p) == Lookup(b, r, p) {
      assert Lookup(mem', r, p) == Lookup(mem, r, p);
    }
  }

  /** Programs reach all the pages. */
  ghost predicate AllReach(mem: Memory, r: nat, ps: seq<LoadedPage>) {
    forall a :: 0 <= a < |ps| ==> UserReaches(mem, r, Indices(ps[a].vaddr))
  }

  /** One more page that programs reach. */
  lemma ReachMore(m0: Memory, b: Memory, s: Sys, s': Sys, r: nat, pool: set<nat>, ps: seq<LoadedPage>, hand: set<nat>,
                  x: LoadedPage)
    requires LoadState(m0, b, s, r, pool, ps, hand) && AllReach(s.mem, r, ps) && NoGiants(s'.mem, r)
    requires MapSlots(s.mem, s'.mem, r, Indices(x.vaddr)) && UserReaches(s'.mem, r, Indices(x.vaddr))
    ensures AllReach(s'.mem, r, ps + [x])
  {
    hide Building, Lookup, SameLookups, Indices, MapSlots, UserReaches, Giant, InUser;
    var ps' := ps + [x];
    forall a | 0 <= a < |ps'| ensures UserReaches(s'.mem, r, Indices(ps'[a].vaddr)) {
      if a < |ps| {
        assert Tracked(b, s.mem, r, ps[a]);
        PagePath(ps[a].vaddr);
        ReachKept(s.mem, s'.mem, r, Indices(ps[a].vaddr), Indices(x.vaddr));
      }
    }
  }

  lemma StateUserPage(m0: Memory, b: Memory, s: Sys, r: nat, pool: set<nat>, ps: seq<LoadedPage>, hand: set<nat>,
                      a: nat)
    requires LoadState(m0, b, s, r, pool, ps, hand) && a < |ps|
    ensures UserPage(Indices(ps[a].vaddr)) && !Giant(s.mem, r, Indices(ps[a].vaddr).l3)
  {
    hide Building, Lookup, SameLookups, Indices, UserPage, Giant;
    assert Tracked(b, s.mem, r, ps[a]);
    PagePath(ps[a].vaddr);
  }

  lemma StateGiants(m0: Memory, b: Memory, s: Sys, r: nat, pool: set<nat>, ps: seq<LoadedPage>, hand: set<nat>)
    requires LoadState(m0, b, s, r, pool, ps, hand)
    ensures NoGiants(s.mem, r)
  {
  }

  // ----- Writing a page -------------------------------------------------------

  /** Changing the bytes of tracked pages moves no mapping. */
  lemma WriteTracks(m0: Memory, b: Memory, s: Sys, mem': Memory, r: nat, pool: set<nat>, ps: seq<LoadedPage>, a: nat)
    requires LoadState(m0, b, s, r, pool, ps, {}) && a < |ps| && AgreeExcept(s.mem, mem', {ps[a].frame})
    ensures LoadState(m0, b, s.(mem := mem'), r, pool, ps, {}) && SameLookups(s.mem, mem', r, {})
    ensures SlotsExcept(s.mem, mem', r, {})
  {
    hide Lookup, Tracks, Space, HugeUser, SameNode, SlotsExcept;
    TrackedFrame(m0, b, s, r, pool, ps, {}, a);
    OutsideChange(s.mem, mem', r, s.own, pool, {ps[a].frame});
    WriteGiants(s.mem, mem', r);
    SlotsSame(s.mem, mem', r);
    SameTracks(b, s.mem, mem', r, ps);
    forall f: nat | f !in pool ensures Get(mem', f) == Get(m0, f) {
      assert Get(s.mem, f) == Get(m0, f);
    }
  }

  lemma WriteGiants(mem: Memory, mem': Memory, r: nat)
    requires forall m: Node :: SameNode(mem, mem', r, m)
    ensures SameGiants(mem, mem', r)
  {
    forall i: Idx ensures Giant(mem', r, i) == Giant(mem, r, i) {
      assert SameNode(mem, mem', r, Pd(i));
    }
    forall i: Idx, j: Idx ensures HugeUser(mem', r, i, j) == HugeUser(mem, r, i, j) {
      assert SameNode(mem, mem', r, Pt(i, j));
    }
  }

  // ----- Unmapping a page -----------------------------------------------------

  lemma DropTracked(b: Memory, mem: Memory, mem': Memory, r: nat, ps: seq<LoadedPage>)
    requires ps != [] && Tracks(b, mem, r, ps) && SameLookups(mem, mem', r, {Indices(ps[0].vaddr)})
    requires Lookup(mem', r, Indices(ps[0].vaddr)) == None
    ensures Tracks(b, mem', r, ps[1..])
  {
    hide Lookup, Indices;
    assert Tracked(b, mem, r, ps[0]);
    var ps' := ps[1..];
    forall a | 0 <= a < |ps'| ensures Tracked(b, mem', r, ps'[a]) {
      assert Tracked(b, mem, r, ps[a + 1]);
      PageDistinct(ps[0].vaddr, ps[a + 1].vaddr);
    }
    forall p: Path | p !in Paths(ps') ensures Lookup(mem', r, p) == Lookup(b, r, p) {
      if p in Paths(ps) {
        PathsDrop(ps, p);
      }
    }
  }

  lemma PathsDrop(ps: seq<LoadedPage>, p: Path)
    requires ps != [] && p in Paths(ps)
    ensures p == Indices(ps[0].vaddr) || p in Paths(ps[1..])
  {
    hide Indices;
    var a :| 0 <= a < |ps| && p == Indices(ps[a].vaddr);
    assert a > 0 ==> ps[1..][a - 1] == ps[a];
  }

  /** Unmapping the first tracked page and freeing its frame. */
  lemma UnmapTracks(m0: Memory, b: Memory, s: Sys, s1: Sys, r: nat, pool: set<nat>, ps: seq<LoadedPage>,
                    res: Option<Entry>)
    requires LoadState(m0, b, s, r, pool, ps, {}) && ps != []
    requires UnmapStep(s, s1, r, pool, Indices(ps[0].vaddr), res)
    ensures res.Some? && res.value.frame == ps[0].frame && ps[0].frame in pool && ps[0].frame !in s1.free
    ensures LoadState(m0, b, s1.(free := s1.free + {ps[0].frame}), r, pool, ps[1..], {})
  {
    hide Lookup, Space, Indices, Big, Giant, HugeUser;
    assert Tracked(b, s.mem, r, ps[0]);
    PagePath(ps[0].vaddr);
    NotBig(m0, s, r, pool, Indices(ps[0].vaddr));
    DropTracked(b, s.mem, s1.mem, r, ps);
    TrackedFrame(m0, b, s, r, pool, ps, {}, 0);
    forall f: nat | f !in pool ensures Get(s1.mem, f) == Get(m0, f) {
      assert f !in s.own;
      assert Get(s.mem, f) == Get(m0, f);
    }
  }

  lemma NotBig(m0: Memory, s: Sys, r: nat, pool: set<nat>, p: Path)
    requires Building(m0, s, r, pool, {}) && UserPage(p) && NoGiants(s.mem, r)
    requires Lookup(s.mem, r, p).Some? && Lookup(s.mem, r, p).value.flags.user
    ensures !Big(s.mem, r, p)
  {
    assert !HugeUser(s.mem, r, p.l3, p.l2);
  }

  // ----- A fresh page ----------------------------------------------------------

  lemma HandReady(m0: Memory, b: Memory, s: Sys, r: nat, pool: set<nat>, ps: seq<LoadedPage>, v: nat, g: nat)
    requires LoadState(m0, b, s, r, pool, ps, {}) && PageOk(v) && g in s.free
    ensures var s' := s.(free := s.free - {g});
      LoadState(m0, b, s', r, pool, ps, {g}) && Mappable(s', r, pool, Indices(v), g, PAGE_USER_RW)
  {
    hide Building, Tracks, Indices;
    TakeHand(m0, s, r, pool, g);
    HandMaps(m0, b, s.(free := s.free - {g}), r, pool, ps, v, g);
  }

  lemma HandMaps(m0: Memory, b: Memory, s: Sys, r: nat, pool: set<nat>, ps: seq<LoadedPage>, v: nat, g: nat)
    requires LoadState(m0, b, s, r, pool, ps, {g}) && PageOk(v)
    ensures Mappable(s, r, pool, Indices(v), g, PAGE_USER_RW)
  {
    hide Building, Tracks, Indices;
    PagePath(v);
    HandMappable(m0, s, r, pool, Indices(v), g, PAGE_USER_RW);
  }

  lemma HandReturned(m0: Memory, b: Memory, s: Sys, r: nat, pool: set<nat>, ps: seq<LoadedPage>, g: nat)
    requires LoadState(m0, b, s, r, pool, ps, {g})
    ensures LoadState(m0, b, s.(free := s.free + {g}), r, pool, ps, {}) && g in pool && g !in s.free
  {
    hide Building, Tracks;
    HandFree(m0, s, r, pool, g);
    HandInPool(m0, s, r, pool, g);
  }

  lemma NoneFree(mem: Memory, r: nat, free: set<nat>, v: nat)
    requires free == {}
    ensures Unmappable(mem, r, free, v) && Starved(free, free, v)
  {
    hide Indices, IsScratch, Missing;
  }

  /**
    What a failed attempt leaves free: all of it for the scratch page, otherwise the one frame meant for the
    page, if there was one.
   */
  ghost predicate Starved(free: set<nat>, free': set<nat>, v: nat) {
    if IsScratch(Indices(v)) then free' == free else free' <= free && |free'| == if free == {} then 0 else 1
  }

  /** Page `v` cannot be mapped: too few frames for it and the tables on the way, or the scratch page. */
  ghost predicate Unmappable(mem: Memory, r: nat, free: set<nat>, v: nat) {
    IsScratch(Indices(v)) || |free| <= Missing(mem, r, Indices(v))
  }

  /**
    What a failed attempt leaves: a frame taken for a table when two or more were free, otherwise everything as
    before.
   */
  ghost predicate AttemptLeft(s: Sys, s': Sys, v: nat) {
    if IsScratch(Indices(v)) || |s.free| <= 1 then s' == s else exists f :: f in s'.own && f !in s.own
  }

  lemma NothingLeft(s: Sys, v: nat)
    requires s.free == {}
    ensures AttemptLeft(s, s, v)
  {
    hide IsScratch, Indices;
  }

  lemma OneFree(free: set<nat>, g: nat)
    requires g in free
    ensures |free| <= 1 <==> free - {g} == {}
  {
    assert free == {g} + (free - {g});
  }

  /** What a failed mapping says of the frames. */
  lemma FailedFrames(s: Sys, s': Sys, r: nat, pool: set<nat>, p: Path, g: nat)
    requires MapStep(s, s', r, pool, p, g, PAGE_USER_RW, false) && Lookup(s.mem, r, p) == None
    requires Mappable(s, r, pool, p, g, PAGE_USER_RW)
    ensures if IsScratch(p) then s' == s
      else s'.free == {} && s'.own.Keys == s.free + s.own.Keys && s.free !! s.own.Keys
  {
    hide Space, Lookup, Missing, IsScratch, SameLookups, SameGiants, KeepsData, Giant, UserPage;
    assert {} + s'.own.Keys == s'.own.Keys;
    assert s.free + s.own.Keys + {} == s.free + s.own.Keys;
  }

  lemma AttemptTakes(s: Sys, s': Sys, r: nat, pool: set<nat>, v: nat, g: nat, free: set<nat>)
    requires MapStep(s, s', r, pool, Indices(v), g, PAGE_USER_RW, false) && Lookup(s.mem, r, Indices(v)) == None
    requires Mappable(s, r, pool, Indices(v), g, PAGE_USER_RW)
    requires g in free && s.free == free - {g} && (s.free == {} ==> s' == s)
    ensures AttemptLeft(s.(free := free), s'.(free := s'.free + {g}), v)
  {
    hide MapStep, Mappable, Lookup, Indices, IsScratch;
    FailedFrames(s, s', r, pool, Indices(v), g);
    OneFree(free, g);
    if IsScratch(Indices(v)) || |free| <= 1 {
      assert s'.free + {g} == free;
    } else {
      var f :| f in s.free;
      assert f in s'.own.Keys && f !in s.own.Keys;
    }
  }

  lemma AttemptFails(s: Sys, s': Sys, r: nat, pool: set<nat>, v: nat, g: nat, ok: bool, free: set<nat>)
    requires MapStep(s, s', r, pool, Indices(v), g, PAGE_USER_RW, ok) && Lookup(s.mem, r, Indices(v)) == None
    requires g in free && s.free == free - {g}
    ensures ok <==> !Unmappable(s.mem, r, free, v)
    ensures !ok ==> Starved(free, s'.free + {g}, v)
  {
    hide Ok, Lookup, Indices, Missing, IsScratch, SameLookups, SameGiants, KeepsData;
    assert free == s.free + {g};
  }

  /**
    Back a page that is not mapped yet with a fresh frame; the frame goes back when mapping fails, but
    the tables taken on the way do not.
   */
  method MapFreshPage(m: Machine, r: nat, v: nat, ghost m0: Memory, ghost b: Memory, ghost pool: set<nat>,
                      ghost ps: seq<LoadedPage>,
                      ghost own: map<nat, Node>)
    returns (frame: Option<nat>, ghost own': map<nat, Node>)
    requires m.Valid() && m.pmm.Manages(pool) && LoadState(m0, b, m.S(own), r, pool, ps, {}) && PageOk(v)
    requires Lookup(m.mem, r, Indices(v)) == None
    modifies m, m.pmm
    ensures m.Valid() && m.cr3 == old(m.cr3) && m.pmm.Tail() == old(m.pmm.Tail())
    ensures LoadState(m0, b, m.S(own'), r, pool, if frame.Some? then ps + [LoadedPage(v, frame.value)] else ps, {})
    ensures frame.Some? ==> forall a :: 0 <= a < |ps| ==> Get(m.mem, ps[a].frame) == Get(old(m.mem), ps[a].frame)
    ensures frame.None? <==> Unmappable(old(m.mem), r, old(m.pmm.Free()), v)
    ensures frame.None? ==> Starved(old(m.pmm.Free()), m.pmm.Free(), v)
    ensures frame.None? ==> AttemptLeft(old(m.S(own)), m.S(own'), v)
    ensures MapSlots(old(m.mem), m.mem, r, Indices(v))
    ensures frame.Some? ==> Mapped(m.mem, r, Indices(v), Entry(frame.value, PAGE_USER_RW))
    ensures frame.Some? ==> UserReaches(m.mem, r, Indices(v))
  {
    hide UserReaches, LoadState, Mappable, MapStep, Lookup, Indices, Unmappable, Starved, AttemptLeft, MapSlots, Mapped;
    own' := own;
    frame := m.pmm.Alloc();
    if frame.None? {
      MapSlotsRefl(m.mem, r, Indices(v));
      NothingLeft(m.S(own), v);
      NoneFree(m.mem, r, m.pmm.Free(), v);
      return;
    }
    ghost var x := LoadedPage(v, frame.value);
    HandReady(m0, b, old(m.S(own)), r, pool, ps, v, x.frame);
    ghost var s := m.S(own);
    var ok;
    ok, own' := m.TryMap4KTarget(Indices(v), frame.value, PAGE_USER_RW, r, pool, own);
    MapTracks(m0, b, s, m.S(own'), r, pool, ps, x, ok);
    AttemptFails(s, m.S(own'), r, pool, v, x.frame, ok, old(m.pmm.Free()));
    if !ok {
      AttemptTakes(s, m.S(own'), r, pool, v, x.frame, old(m.pmm.Free()));
      HandReturned(m0, b, m.S(own'), r, pool, ps, x.frame);
      m.Release(frame.value, pool);
      frame := None;
    }
  }

  // ----- Starting and giving up ------------------------------------------------

  /** The user range of root `r` is empty. */
  ghost predicate UserEmpty(mem: Memory, r: nat) {
    forall p: Path :: UserPage(p) ==> Lookup(mem, r, p) == None
  }

  /** A fresh root without user pages is ready to be loaded. */
  lemma RootReadyToLoad(m0: Memory, src: nat, s: Sys, r: nat, pool: set<nat>)
    requires Building(m0, s, r, pool, {}) && ClonedRoot(m0, src, s.mem, r, pool, false) && NoGiants(m0, src)
    ensures LoadState(m0, s.mem, s, r, pool, [], {}) && UserEmpty(s.mem, r)
  {
    hide Building, ClonedRoot, Lookup;
    forall p: Path | UserPage(p) ensures Lookup(s.mem, r, p) == None {
      assert !Giant(m0, src, p.l3);
      ImageRootEmpty(m0, src, s.mem, r, pool, p);
    }
    forall i: Idx ensures !Giant(s.mem, r, i) {
      assert !Giant(m0, src, i);
      GiantsFrom(m0, src, s.mem, r, pool, false, i);
    }
  }

  lemma StateAgrees(m0: Memory, b: Memory, s: Sys, r: nat, pool: set<nat>, ps: seq<LoadedPage>)
    requires LoadState(m0, b, s, r, pool, ps, {})
    ensures AgreeExcept(m0, s.mem, pool) && Building(m0, s, r, pool, {})
  {
    hide Space, Tracks, HugeUser;
  }

  /** Tear down a root that is still being loaded: the bitmap is as it was before the root was created. */
  method Discard(m: Machine, h: Pml4Handle, ghost m0: Memory, ghost b: Memory, ghost pool: set<nat>,
                 ghost ps: seq<LoadedPage>,
                 ghost own: map<nat, Node>, ghost bits0: seq<bool>)
    requires m.Valid() && h.ownsUserLeaves && LoadState(m0, b, m.S(own), h.phys, pool, ps, {})
    requires |bits0| == PMM_MAX_PAGES && pool == FreeFrames(bits0, m.pmm.memoryStart, m.pmm.totalPages)
    requires bits0[m.pmm.totalPages..] == m.pmm.Tail()
    modifies m.pmm
    ensures m.Valid() && m.pmm.bits == bits0 && AgreeExcept(m0, m.mem, pool)
  {
    hide LoadState, Building, Destroyable, Returned, TailSafe;
    StateAgrees(m0, b, m.S(own), h.phys, pool, ps);
    BuildingTearsDown(m0, m.S(own), h.phys, pool, m);
    DestroyUncommittedPml4(m, h, own);
    SameBitmap(bits0, m.pmm.bits, m.pmm.memoryStart, m.pmm.totalPages);
  }

  // ----- Reading the result ----------------------------------------------------

  function Bytes(mem: Memory, f: nat): PageBytes {
    match Get(mem, f)
    case DataFrame(b) => b
    case TableFrame(_) => ZeroPage()
  }

  ghost predicate HasPage(ps: seq<LoadedPage>, x: nat) {
    exists a :: 0 <= a < |ps| && ps[a].vaddr == x
  }

  lemma HasAppended(ps: seq<LoadedPage>, y: LoadedPage, x: nat)
    ensures HasPage(ps + [y], x) <==> HasPage(ps, x) || x == y.vaddr
  {
    if HasPage(ps, x) {
      var a :| 0 <= a < |ps| && ps[a].vaddr == x;
      assert (ps + [y])[a].vaddr == x;
    }
    assert (ps + [y])[|ps|] == y;
  }

  lemma PageMapped(b: Memory, mem: Memory, r: nat, ps: seq<LoadedPage>, a: nat)
    requires Tracks(b, mem, r, ps) && a < |ps|
    ensures Lookup(mem, r, Indices(ps[a].vaddr)) == Some(Mapping(ps[a].frame, PAGE_USER_RW))
  {
    assert Tracked(b, mem, r, ps[a]);
  }

  /** Every page of the user range has a user address. */
  lemma UserPageAddress(p: Path)
    requires UserPage(p)
    ensures PageOk(PathAddr(p)) && Indices(PathAddr(p)) == p
  {
    hide Indices;
    PathInverse(p);
  }

  lemma StateDistinct(m0: Memory, b: Memory, s: Sys, r: nat, pool: set<nat>, ps: seq<LoadedPage>)
    requires LoadState(m0, b, s, r, pool, ps, {})
    ensures forall a, c :: 0 <= a < c < |ps| ==> ps[a].vaddr != ps[c].vaddr
  {
  }

  /** A user page of the root is mapped exactly when it is recorded. */
  lemma RecordedPage(m0: Memory, b: Memory, s: Sys, r: nat, pool: set<nat>, all: seq<LoadedPage>, x: nat)
    requires LoadState(m0, b, s, r, pool, all, {}) && UserEmpty(b, r) && PageOk(x)
    ensures Lookup(s.mem, r, Indices(x)).Some? <==> HasPage(all, x)
    ensures forall a :: 0 <= a < |all| && all[a].vaddr == x ==>
      && Lookup(s.mem, r, Indices(x)) == Some(Mapping(all[a].frame, PAGE_USER_RW)) && all[a].frame in pool
      && all[a].frame !in s.free
      && forall c :: 0 <= c < |all| && c != a ==> all[c].frame != all[a].frame
  {
    hide Building, Lookup, Indices, NoGiants;
    PagePath(x);
    forall a | 0 <= a < |all| && all[a].vaddr == x
      ensures Lookup(s.mem, r, Indices(x)) == Some(Mapping(all[a].frame, PAGE_USER_RW)) && all[a].frame in pool
      ensures all[a].frame !in s.free
      ensures forall c :: 0 <= c < |all| && c != a ==> all[c].frame != all[a].frame
    {
      PageMapped(b, s.mem, r, all, a);
      TrackedFrame(m0, b, s, r, pool, all, {}, a);
    }
    if !HasPage(all, x) {
      forall a | 0 <= a < |all| ensures Indices(all[a].vaddr) != Indices(x) {
        assert Tracked(b, s.mem, r, all[a]);
        PageDistinct(all[a].vaddr, x);
      }
      assert Indices(x) !in Paths(all);
    }
  }
}
