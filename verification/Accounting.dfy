/**
  What loading an image comes to, worked out beforehand from the image, the root and the free frames: which
  page stops the load and with what error, and whether the rollback gives every frame back.
  `s0` is the state when loading begins and `cap` the number of pages that can be recorded.
 */
module Accounting {
  import opened Prelude
  import opened PageTables
  import opened Trees
  import opened Paging
  import opened Cloning
  import opened Provenance
  import opened Loading
  import opened ElfFormat
  import opened Footprint

  function PathsOf(vs: seq<nat>): set<Path> {
    set a | 0 <= a < |vs| :: Indices(vs[a])
  }

  function Addrs(ps: seq<LoadedPage>): seq<nat> {
    seq(|ps|, i requires 0 <= i < |ps| => ps[i].vaddr)
  }

  lemma PathsAddrs(ps: seq<LoadedPage>)
    ensures PathsOf(Addrs(ps)) == Paths(ps)
  {
    hide Indices;
    forall p: Path ensures p in PathsOf(Addrs(ps)) <==> p in Paths(ps) {
      if p in Paths(ps) {
        var a :| 0 <= a < |ps| && p == Indices(ps[a].vaddr);
        assert Addrs(ps)[a] == ps[a].vaddr;
      }
    }
  }

  lemma PathsMore(vs: seq<nat>, v: nat)
    ensures PathsOf(vs + [v]) == PathsOf(vs) + {Indices(v)}
  {
    hide Indices;
    var vs' := vs + [v];
    forall p: Path ensures p in PathsOf(vs') <==> p in PathsOf(vs) + {Indices(v)} {
      if p in PathsOf(vs) {
        var a :| 0 <= a < |vs| && p == Indices(vs[a]);
        assert vs'[a] == vs[a];
      }
      assert vs'[|vs|] == v;
    }
  }

  // ----- Beforehand -----------------------------------------------------------------

  /** Free frames left once the pages `vs` and the tables on the way to them are in; negative when they do not fit. */
  ghost function Left(s0: Sys, r: nat, vs: seq<nat>): int {
    |s0.free| - |Need(s0.mem, r, PathsOf(vs))|
  }

  /** How page `v` fails to load when the pages `seen` are in, if it does. */
  ghost function Fate(s0: Sys, r: nat, cap: nat, seen: seq<nat>, v: nat): Option<ElfError> {
    if Lookup(s0.mem, r, Indices(v)).Some? then Some(MappingCollision)
    else if |seen| >= cap then Some(MetadataOom)
    else if IsScratch(Indices(v)) || Left(s0, r, seen + [v]) < 0 then Some(Oom)
    else None
  }

  /** The first page of `vs` from the k-th on that fails, or |vs|. */
  ghost function StopAt(s0: Sys, r: nat, cap: nat, vs: seq<nat>, k: nat): nat
    requires k <= |vs|
    ensures k <= StopAt(s0, r, cap, vs, k) <= |vs|
    decreases |vs| - k
  {
    if k == |vs| || Fate(s0, r, cap, vs[..k], vs[k]).Some? then k else StopAt(s0, r, cap, vs, k + 1)
  }

  /**
    Page `v` fails for want of frames with two or more left: one is meant for the page and goes back,
    the others become tables that lead nowhere.
   */
  ghost predicate Leaks(s0: Sys, r: nat, cap: nat, seen: seq<nat>, v: nat) {
    Fate(s0, r, cap, seen, v) == Some(Oom) && !IsScratch(Indices(v)) && Left(s0, r, seen) >= 2
  }

  /** A load that fails at page `v` gives back exactly what it took. */
  ghost predicate Restores(s0: Sys, r: nat, cap: nat, seen: seq<nat>, v: nat) {
    !Leaks(s0, r, cap, seen, v) && NothingDropped(s0.mem, r, PathsOf(seen))
  }

  /** In a root without empty tables: unless page `v` is starved with two or more frames left. */
  lemma RestoresUnlessStarved(s0: Sys, r: nat, cap: nat, seen: seq<nat>, v: nat)
    requires Stocked(s0.mem, r) && Fate(s0, r, cap, seen, v).Some?
    ensures Restores(s0, r, cap, seen, v) <==>
      !(&& Lookup(s0.mem, r, Indices(v)) == None && |seen| < cap && !IsScratch(Indices(v))
        && 2 <= Left(s0, r, seen) && Left(s0, r, seen + [v]) < 0)
  {
    hide Lookup, Indices, IsScratch, Left, Stocked, NothingDropped, PathsOf;
    StockedKeeps(s0.mem, r, PathsOf(seen));
  }

  // ----- While loading ----------------------------------------------------------------

  /** Every page of the kernel's low identity map is mapped. */
  ghost predicate LowMapped(mem: Memory, r: nat) {
    forall p: Path :: p.l4 == 0 && !InUser(p.l3, p.l2) ==> Lookup(mem, r, p).Some?
  }

  ghost predicate Started(m0: Memory, s0: Sys, r: nat, pool: set<nat>) {
    LoadState(m0, s0.mem, s0, r, pool, [], {}) && LowMapped(s0.mem, r)
  }

  /** None of the pages `vs` fails. */
  ghost predicate Clear(s0: Sys, r: nat, cap: nat, vs: seq<nat>) {
    forall a :: 0 <= a < |vs| ==> Fate(s0, r, cap, vs[..a], vs[a]) == None
  }

  /** The pages recorded so far were not to fail, and the root has grown by them alone. */
  ghost predicate OnCourse(s0: Sys, mem: Memory, r: nat, cap: nat, ps: seq<LoadedPage>) {
    Grown(s0.mem, mem, r, Paths(ps)) && Clear(s0, r, cap, Addrs(ps))
  }

  lemma CourseStart(s0: Sys, r: nat, cap: nat)
    ensures OnCourse(s0, s0.mem, r, cap, []) && Addrs([]) == []
  {
    hide Grown, Fate;
    GrownStart(s0.mem, r);
    assert Paths([]) == {};
  }

  /** The load has stopped at the page after those recorded, with the error it was to stop with. */
  ghost predicate Halted(s0: Sys, t: Memory, r: nat, cap: nat, vs: seq<nat>, ps: seq<LoadedPage>, e: ElfError) {
    && Addrs(ps) < vs && Clear(s0, r, cap, Addrs(ps)) && Fate(s0, r, cap, Addrs(ps), vs[|ps|]) == Some(e)
    && Rooted(t, r, Paths(ps))
    && if Leaks(s0, r, cap, Addrs(ps), vs[|ps|]) then Leaked(s0, t, r, Paths(ps)) else Grown(s0.mem, t, r, Paths(ps))
  }

  lemma HaltedLater(s0: Sys, t: Memory, r: nat, cap: nat, vs: seq<nat>, vs': seq<nat>, ps: seq<LoadedPage>, e: ElfError)
    requires Halted(s0, t, r, cap, vs, ps, e) && vs <= vs'
    ensures Halted(s0, t, r, cap, vs', ps, e)
  {
    hide Clear, Fate, Leaks, Rooted, Leaked, Grown;
  }

  // ----- One page -----------------------------------------------------------------------

  lemma StateBooks(m0: Memory, b: Memory, s: Sys, r: nat, pool: set<nat>, ps: seq<LoadedPage>)
    requires LoadState(m0, b, s, r, pool, ps, {})
    ensures Books(s, r, pool) && UserPages(Paths(ps))
  {
    hide WellFormed, Indices, Lookup, SameLookups, UserPage;
    assert s.free + s.own.Keys + {} == s.free + s.own.Keys;
    forall p | p in Paths(ps) ensures UserPage(p) {
      var a :| 0 <= a < |ps| && p == Indices(ps[a].vaddr);
      assert Tracked(b, s.mem, r, ps[a]);
      PagePath(ps[a].vaddr);
    }
  }

  /** A page below the user range, or in it. */
  predicate LowOrUser(v: nat) {
    PageOk(v) || (v % 0x1000 == 0 && v < USER_CODE_ADDR)
  }

  lemma LowPath(v: nat)
    requires v < USER_CODE_ADDR
    ensures Indices(v).l4 == 0 && !InUser(Indices(v).l3, Indices(v).l2)
  {
  }

  /** A page not recorded is mapped exactly when it was at the start. */
  lemma NotRecorded(b: Memory, mem: Memory, r: nat, ps: seq<LoadedPage>, v: nat)
    requires Tracks(b, mem, r, ps) && LowOrUser(v) && !HasPage(ps, v)
    ensures Lookup(mem, r, Indices(v)) == Lookup(b, r, Indices(v))
  {
    hide Lookup, Indices, InUser;
    forall a | 0 <= a < |ps| ensures Indices(ps[a].vaddr) != Indices(v) {
      assert Tracked(b, mem, r, ps[a]);
      PagePath(ps[a].vaddr);
      if PageOk(v) {
        PageDistinct(ps[a].vaddr, v);
      } else {
        LowPath(v);
      }
    }
    assert Indices(v) !in Paths(ps);
  }

  /** What `Fate` computed is what the loader meets. */
  ghost predicate Foreseen(s0: Sys, s: Sys, r: nat, ps: seq<LoadedPage>, v: nat) {
    && Lookup(s.mem, r, Indices(v)) == Lookup(s0.mem, r, Indices(v))
    && |s.free| == Left(s0, r, Addrs(ps))
    && (Lookup(s.mem, r, Indices(v)) == None ==>
        PageOk(v) && (Unmappable(s.mem, r, s.free, v) <==> IsScratch(Indices(v)) || Left(s0, r, Addrs(ps) + [v]) < 0))
  }

  lemma Foresee(m0: Memory, s0: Sys, s: Sys, r: nat, pool: set<nat>, cap: nat, ps: seq<LoadedPage>, v: nat)
    requires Started(m0, s0, r, pool) && LoadState(m0, s0.mem, s, r, pool, ps, {}) && OnCourse(s0, s.mem, r, cap, ps)
    requires LowOrUser(v) && !HasPage(ps, v)
    ensures Foreseen(s0, s, r, ps, v)
  {
    hide Building, Tracks, NoGiants, Grown, Clear, Lookup, Indices, HasPage, Books, WellFormed, Missing, IsScratch,
         Need, InUser;
    StateBooks(m0, s0.mem, s0, r, pool, []);
    StateBooks(m0, s0.mem, s, r, pool, ps);
    LeftNow(s0, s, r, pool, ps);
    NotRecorded(s0.mem, s.mem, r, ps, v);
    if Lookup(s.mem, r, Indices(v)) == None {
      UserIfUnmapped(s0.mem, r, v);
      LeftNext(s0, s, r, ps, v);
    }
  }

  lemma LeftNow(s0: Sys, s: Sys, r: nat, pool: set<nat>, ps: seq<LoadedPage>)
    requires Books(s0, r, pool) && Books(s, r, pool) && Grown(s0.mem, s.mem, r, Paths(ps))
    ensures |s.free| == Left(s0, r, Addrs(ps)) && s.free <= s0.free
  {
    hide Grown, WellFormed, Need, Paths, PathsOf;
    PathsAddrs(ps);
    FramesLeft(s0.mem, s.mem, r, Paths(ps), s0.own, s.own, s0.free, s.free);
  }

  lemma UserIfUnmapped(b: Memory, r: nat, v: nat)
    requires LowMapped(b, r) && LowOrUser(v) && Lookup(b, r, Indices(v)) == None
    ensures PageOk(v)
  {
    hide Lookup, Indices, InUser;
    if v < USER_CODE_ADDR {
      LowPath(v);
    }
  }

  lemma LeftNext(s0: Sys, s: Sys, r: nat, ps: seq<LoadedPage>, v: nat)
    requires Grown(s0.mem, s.mem, r, Paths(ps)) && PageOk(v) && Lookup(s.mem, r, Indices(v)) == None
    requires NoGiants(s.mem, r)
    ensures Left(s0, r, Addrs(ps) + [v]) == Left(s0, r, Addrs(ps)) - 1 - Missing(s.mem, r, Indices(v))
  {
    hide Grown, Need, Paths, PathsOf, Lookup, Indices, Missing, Giant;
    PagePath(v);
    PathsAddrs(ps);
    PathsMore(Addrs(ps), v);
    NeedMore(s0.mem, s.mem, r, Paths(ps), Indices(v));
  }

  /** Nothing has been done for the page that stops the load. */
  lemma HaltedClean(s0: Sys, t: Memory, r: nat, cap: nat, ps: seq<LoadedPage>, v: nat, e: ElfError)
    requires OnCourse(s0, t, r, cap, ps) && Fate(s0, r, cap, Addrs(ps), v) == Some(e)
    requires !Leaks(s0, r, cap, Addrs(ps), v)
    ensures Halted(s0, t, r, cap, Addrs(ps) + [v], ps, e)
  {
    hide Grown, Rooted, Fate, Leaks, Clear, Paths;
    RootedNow(s0.mem, t, r, Paths(ps));
  }

  /** An attempt has been made at the page that stops the load. */
  lemma HaltedStarved(m0: Memory, s0: Sys, s: Sys, t: Sys, r: nat, pool: set<nat>, cap: nat, ps: seq<LoadedPage>,
                      v: nat)
    requires Started(m0, s0, r, pool) && LoadState(m0, s0.mem, s, r, pool, ps, {}) && OnCourse(s0, s.mem, r, cap, ps)
    requires LoadState(m0, s0.mem, t, r, pool, ps, {}) && Foreseen(s0, s, r, ps, v)
    requires Lookup(s.mem, r, Indices(v)) == None
    requires Fate(s0, r, cap, Addrs(ps), v) == Some(Oom)
    requires MapSlots(s.mem, t.mem, r, Indices(v)) && AttemptLeft(s, t, v)
    ensures Halted(s0, t.mem, r, cap, Addrs(ps) + [v], ps, Oom)
  {
    hide LoadState, LowMapped, Grown, Rooted, Clear, Books, MapSlots, Lookup, Indices, IsScratch, Left, Paths,
         UserPages, Unmappable, Fate, Leaked;
    StateBooks(m0, s0.mem, s0, r, pool, []);
    StateBooks(m0, s0.mem, s, r, pool, ps);
    StateBooks(m0, s0.mem, t, r, pool, ps);
    LeftNow(s0, s, r, pool, ps);
    PagePath(v);
    if Leaks(s0, r, cap, Addrs(ps), v) {
      var f :| f in t.own && f !in s.own;
      AttemptLeaks(s0, s, t, r, pool, Paths(ps), Indices(v), f);
      RootedAfter(s0.mem, s.mem, t.mem, r, Paths(ps), Indices(v));
    } else {
      HaltedClean(s0, t.mem, r, cap, ps, v, Oom);
    }
  }

  /** The page is in. */
  lemma CourseOn(s0: Sys, mem: Memory, mem': Memory, mem'': Memory, r: nat, cap: nat, ps: seq<LoadedPage>,
                 x: LoadedPage)
    requires OnCourse(s0, mem, r, cap, ps) && UserPages(Paths(ps)) && PageOk(x.vaddr)
    requires Lookup(mem, r, Indices(x.vaddr)) == None && Fate(s0, r, cap, Addrs(ps), x.vaddr) == None
    requires MapSlots(mem, mem', r, Indices(x.vaddr)) && Mapped(mem', r, Indices(x.vaddr), Entry(x.frame, PAGE_USER_RW))
    requires SlotsExcept(mem', mem'', r, {}) && UserReaches(mem', r, Indices(x.vaddr))
    ensures OnCourse(s0, mem'', r, cap, ps + [x]) && Addrs(ps + [x]) == Addrs(ps) + [x.vaddr]
  {
    hide Grown, Lookup, Indices, MapSlots, Mapped, SlotsExcept, UserPages, Fate, UserReaches;
    PagePath(x.vaddr);
    GrownMap(s0.mem, mem, mem', r, Paths(ps), Indices(x.vaddr), Entry(x.frame, PAGE_USER_RW));
    GrownWrite(s0.mem, mem', mem'', r, Paths(ps) + {Indices(x.vaddr)});
    forall p: Path ensures p in Paths(ps + [x]) <==> p in Paths(ps) + {Indices(x.vaddr)} {
      PathsGrow(ps, x, p);
    }
    assert Paths(ps + [x]) == Paths(ps) + {Indices(x.vaddr)};
    var vs, vs' := Addrs(ps), Addrs(ps + [x]);
    assert vs' == vs + [x.vaddr];
    forall a | 0 <= a < |vs'| ensures Fate(s0, r, cap, vs'[..a], vs'[a]) == None {
      assert vs'[..a] == vs[..a];
    }
  }

  /** Programs reach the pages recorded. */
  lemma CourseReaches(m0: Memory, s0: Sys, s: Sys, r: nat, pool: set<nat>, cap: nat, ps: seq<LoadedPage>)
    requires LoadState(m0, s0.mem, s, r, pool, ps, {}) && OnCourse(s0, s.mem, r, cap, ps)
    ensures AllReach(s.mem, r, ps)
  {
    hide LoadState, Grown, Clear, UserReaches, Indices, UserPage;
    StateBooks(m0, s0.mem, s, r, pool, ps);
    forall a | 0 <= a < |ps| ensures UserReaches(s.mem, r, Indices(ps[a].vaddr)) {
      assert Indices(ps[a].vaddr) in Paths(ps);
      GrownReaches(s0.mem, s.mem, r, Paths(ps), Indices(ps[a].vaddr));
    }
  }

  lemma CourseWrite(s0: Sys, mem: Memory, mem': Memory, r: nat, cap: nat, ps: seq<LoadedPage>)
    requires OnCourse(s0, mem, r, cap, ps) && SlotsExcept(mem, mem', r, {})
    ensures OnCourse(s0, mem', r, cap, ps)
  {
    hide Grown, SlotsExcept, Clear, Paths;
    GrownWrite(s0.mem, mem, mem', r, Paths(ps));
  }

  // ----- The whole load ------------------------------------------------------------------

  lemma {:induction false} StopsHere(s0: Sys, r: nat, cap: nat, vs: seq<nat>, k: nat, n: nat)
    requires k <= n <= |vs| && Clear(s0, r, cap, vs[..n])
    requires n == |vs| || Fate(s0, r, cap, vs[..n], vs[n]).Some?
    ensures StopAt(s0, r, cap, vs, k) == n
    decreases n - k
  {
    hide Fate;
    if k < n {
      assert vs[..n][..k] == vs[..k] && vs[..n][k] == vs[k];
      StopsHere(s0, r, cap, vs, k + 1, n);
    }
  }

  /** A load that stopped and was rolled back to `s`: where, and what it gave back. */
  lemma RolledBack(m0: Memory, s0: Sys, t: Memory, s: Sys, r: nat, pool: set<nat>, cap: nat, vs: seq<nat>,
                   ps: seq<LoadedPage>, e: ElfError)
    requires Started(m0, s0, r, pool) && LoadState(m0, s0.mem, s, r, pool, [], {})
    requires Halted(s0, t, r, cap, vs, ps, e) && Undone(t, s.mem, r, Paths(ps), {})
    ensures var k := StopAt(s0, r, cap, vs, 0);
      && k < |vs| && Fate(s0, r, cap, vs[..k], vs[k]) == Some(e)
      && (s.free == s0.free <==> Restores(s0, r, cap, vs[..k], vs[k]))
  {
    hide LoadState, LowMapped, Clear, Fate, Leaks, Rooted, Leaked, Grown, Undone, Paths, PathsOf, Books, NothingDropped;
    assert vs[..|ps|] == Addrs(ps);
    StopsHere(s0, r, cap, vs, 0, |ps|);
    StateBooks(m0, s0.mem, s0, r, pool, []);
    StateBooks(m0, s0.mem, s, r, pool, []);
    PathsAddrs(ps);
    if Leaks(s0, r, cap, Addrs(ps), vs[|ps|]) {
      LeakStays(s0, t, s, r, pool, Paths(ps));
    } else {
      FreeAgain(s0, t, s, r, pool, Paths(ps));
    }
  }

  lemma Completed(s0: Sys, mem: Memory, r: nat, cap: nat, vs: seq<nat>, ps: seq<LoadedPage>)
    requires OnCourse(s0, mem, r, cap, ps) && Addrs(ps) == vs
    ensures StopAt(s0, r, cap, vs, 0) == |vs|
  {
    hide Fate, Grown;
    assert vs[..|vs|] == vs;
    StopsHere(s0, r, cap, vs, 0, |vs|);
  }
}
