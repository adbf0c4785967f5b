/**
  Executable address ranges of an ELF image (scheduler_evidence.rs): program headers are
  merged one by one, in place, into an array of at most 64 separate intervals.
 */
module Intervals {
  import opened Prelude
  import opened ElfFormat

  const MAX_EXEC_INTERVALS: nat := 64

  datatype Interval = Interval(lo: nat, hi: nat)

  datatype IntervalError = Malformed | Capacity

  datatype Result = Merged(intervals: seq<Interval>) | Rejected(error: IntervalError)

  // ----- Sets of addresses as interval lists ------------------------------------

  predicate Covers(ivs: seq<Interval>, x: nat) {
    exists i :: 0 <= i < |ivs| && ivs[i].lo <= x < ivs[i].hi
  }

  /** Non-empty intervals in increasing order with a gap between any two. */
  ghost predicate Canonical(ivs: seq<Interval>) {
    && (forall i :: 0 <= i < |ivs| ==> ivs[i].lo < ivs[i].hi)
    && (forall i, j :: 0 <= i < j < |ivs| ==> ivs[i].hi < ivs[j].lo)
  }

  /** No covered address borders an interval of a canonical list. */
  lemma NotCovered(f: seq<Interval>, i: nat, x: nat)
    requires Canonical(f) && i < |f| && (x == f[i].hi || x + 1 == f[i].lo)
    ensures !Covers(f, x)
  {
  }

  /** An interval of one canonical list is an interval of any other that covers the same addresses. */
  lemma IntervalFound(f: seq<Interval>, g: seq<Interval>, i: nat) returns (j: nat)
    requires Canonical(f) && Canonical(g) && i < |f| && forall x: nat :: Covers(f, x) <==> Covers(g, x)
    ensures j < |g| && g[j] == f[i]
  {
    assert Covers(f, f[i].lo);
    j :| 0 <= j < |g| && g[j].lo <= f[i].lo < g[j].hi;
    if g[j].lo < f[i].lo {
      NotCovered(f, i, f[i].lo - 1);
    }
    if f[i].hi < g[j].hi {
      NotCovered(f, i, f[i].hi);
    }
    if g[j].hi < f[i].hi {
      NotCovered(g, j, g[j].hi);
    }
  }

  lemma {:induction false} SamePrefix(f: seq<Interval>, g: seq<Interval>, n: nat)
    requires Canonical(f) && Canonical(g) && n <= |f| && forall x: nat :: Covers(f, x) <==> Covers(g, x)
    ensures n <= |g| && f[..n] == g[..n]
  {
    if n > 0 {
      var i := n - 1;
      SamePrefix(f, g, i);
      var j := IntervalFound(f, g, i);
      assert forall k :: 0 <= k < i ==> f[k] == f[..i][k] == g[..i][k] == g[k];
      if j > i {
        var k := IntervalFound(g, f, i);
        assert false;
      }
      assert f[..n] == f[..i] + [f[i]] && g[..n] == g[..i] + [g[i]];
    }
  }

  /** A canonical list is determined by the addresses it covers. */
  lemma CanonicalUnique(f: seq<Interval>, g: seq<Interval>)
    requires Canonical(f) && Canonical(g) && forall x: nat :: Covers(f, x) <==> Covers(g, x)
    ensures f == g
  {
    SamePrefix(f, g, |f|);
    SamePrefix(g, f, |g|);
  }

  // ----- Inserting one interval ---------------------------------------------------

  function Min(a: nat, b: nat): nat { if a < b then a else b }

  function Max(a: nat, b: nat): nat { if a < b then b else a }

  /** Entries [first, last) are those the new interval touches or overlaps, and [lo, hi) is its union with them. */
  ghost predicate Window(ivs: seq<Interval>, lo0: nat, hi0: nat, first: nat, last: nat, lo: nat, hi: nat) {
    && first <= last <= |ivs| && lo <= lo0 < hi0 <= hi
    && (forall k :: 0 <= k < first ==> ivs[k].hi < lo)
    && (forall k :: last <= k < |ivs| ==> hi < ivs[k].lo)
    && (first == last ==> lo == lo0 && hi == hi0)
    && (forall k :: first <= k < last ==> lo <= ivs[k].lo && ivs[k].hi <= hi)
    && (first < last ==>
        && ivs[first].lo <= hi0 && lo0 <= ivs[first].hi
        && lo == Min(lo0, ivs[first].lo) && hi == Max(hi0, ivs[last - 1].hi))
    && (first < last ==> ivs[last - 1].lo <= hi0)
  }

  function Replaced(ivs: seq<Interval>, first: nat, last: nat, lo: nat, hi: nat): seq<Interval>
    requires first <= last <= |ivs|
  {
    ivs[..first] + [Interval(lo, hi)] + ivs[last..]
  }

  lemma ReplacedAt(ivs: seq<Interval>, first: nat, last: nat, lo: nat, hi: nat, k: nat)
    requires first <= last <= |ivs| && k < |Replaced(ivs, first, last, lo, hi)|
    ensures Replaced(ivs, first, last, lo, hi)[k] ==
      if k < first then ivs[k] else if k == first then Interval(lo, hi) else ivs[k - first - 1 + last]
  {
  }

  lemma ReplacedCanonical(ivs: seq<Interval>, lo0: nat, hi0: nat, first: nat, last: nat, lo: nat, hi: nat)
    requires Canonical(ivs) && Window(ivs, lo0, hi0, first, last, lo, hi)
    ensures Canonical(Replaced(ivs, first, last, lo, hi))
  {
    var r := Replaced(ivs, first, last, lo, hi);
    forall k | 0 <= k < |r| ensures r[k].lo < r[k].hi {
      ReplacedAt(ivs, first, last, lo, hi, k);
    }
    forall j, k | 0 <= j < k < |r| ensures r[j].hi < r[k].lo {
      ReplacedAt(ivs, first, last, lo, hi, j);
      ReplacedAt(ivs, first, last, lo, hi, k);
    }
  }

  /** An address between two intervals of the window is in the new interval. */
  lemma WindowFilled(ivs: seq<Interval>, lo0: nat, hi0: nat, first: nat, last: nat, lo: nat, hi: nat, x: nat)
    requires Canonical(ivs) && Window(ivs, lo0, hi0, first, last, lo, hi) && lo <= x < hi
    ensures Covers(ivs, x) || lo0 <= x < hi0
  {
    if x < lo0 {
      assert ivs[first].lo <= x < ivs[first].hi;
    } else if hi0 <= x {
      assert ivs[last - 1].lo <= x < ivs[last - 1].hi;
    }
  }

  /** Replacing the window adds exactly the new interval's addresses. */
  lemma ReplacedCovers(ivs: seq<Interval>, lo0: nat, hi0: nat, first: nat, last: nat, lo: nat, hi: nat, x: nat)
    requires Canonical(ivs) && Window(ivs, lo0, hi0, first, last, lo, hi)
    ensures Covers(Replaced(ivs, first, last, lo, hi), x) <==> Covers(ivs, x) || lo0 <= x < hi0
  {
    hide Covers, Replaced, Canonical;
    if Covers(Replaced(ivs, first, last, lo, hi), x) {
      CoversOld(ivs, lo0, hi0, first, last, lo, hi, x);
    }
    if Covers(ivs, x) || lo0 <= x < hi0 {
      CoversNew(ivs, lo0, hi0, first, last, lo, hi, x);
    }
  }

  lemma CoversOld(ivs: seq<Interval>, lo0: nat, hi0: nat, first: nat, last: nat, lo: nat, hi: nat, x: nat)
    requires Canonical(ivs) && Window(ivs, lo0, hi0, first, last, lo, hi)
    requires Covers(Replaced(ivs, first, last, lo, hi), x)
    ensures Covers(ivs, x) || lo0 <= x < hi0
  {
    var r := Replaced(ivs, first, last, lo, hi);
    var k :| 0 <= k < |r| && r[k].lo <= x < r[k].hi;
    ReplacedAt(ivs, first, last, lo, hi, k);
    if k == first {
      WindowFilled(ivs, lo0, hi0, first, last, lo, hi, x);
    }
  }

  lemma CoversNew(ivs: seq<Interval>, lo0: nat, hi0: nat, first: nat, last: nat, lo: nat, hi: nat, x: nat)
    requires Window(ivs, lo0, hi0, first, last, lo, hi) && (Covers(ivs, x) || lo0 <= x < hi0)
    ensures Covers(Replaced(ivs, first, last, lo, hi), x)
  {
    var r := Replaced(ivs, first, last, lo, hi);
    ReplacedAt(ivs, first, last, lo, hi, first);
    if !(lo0 <= x < hi0) {
      var k :| 0 <= k < |ivs| && ivs[k].lo <= x < ivs[k].hi;
      var k' := if k < first then k else if k < last then first else k - last + first + 1;
      ReplacedAt(ivs, first, last, lo, hi, k');
      assert r[k'].lo <= x < r[k'].hi;
    } else {
      assert r[first].lo <= x < r[first].hi;
    }
  }

  /** `g` covers what `f` covers and [lo, hi). */
  ghost predicate Extends(g: seq<Interval>, f: seq<Interval>, lo: nat, hi: nat) {
    forall x: nat :: Covers(g, x) <==> Covers(f, x) || lo <= x < hi
  }

  /**
    Merge [lo0, hi0) into the first `count` entries of the array. None when a 65th separate
    interval would be needed; otherwise the entries are again canonical and cover exactly
    the addresses covered before and the new ones.
   */
  method InsertInterval(a: array<Interval>, count: nat, lo0: nat, hi0: nat) returns (count': Option<nat>)
    requires a.Length == MAX_EXEC_INTERVALS && count <= MAX_EXEC_INTERVALS && Canonical(a[..count]) && lo0 < hi0
    modifies a
    ensures count'.Some? ==> count'.value <= MAX_EXEC_INTERVALS && Canonical(a[..count'.value])
    ensures count'.Some? ==> Extends(a[..count'.value], old(a[..count]), lo0, hi0)
    ensures count'.None? ==> exists big: seq<Interval> ::
      Canonical(big) && |big| == MAX_EXEC_INTERVALS + 1 && Extends(big, old(a[..count]), lo0, hi0)
  {
    ghost var ivs := a[..count];
    var lo, hi, first := lo0, hi0, 0;
    while first < count && a[first].hi < lo
      invariant 0 <= first <= count && forall k :: 0 <= k < first ==> ivs[k].hi < lo
    {
      first := first + 1;
    }
    var last := first;
    while last < count && a[last].lo <= hi
      invariant first <= last <= count && lo <= lo0 < hi0 <= hi
      invariant first == last ==> lo == lo0 && hi == hi0
      invariant forall k :: first <= k < last ==> lo <= ivs[k].lo && ivs[k].hi <= hi
      invariant first < last ==>
        ivs[first].lo <= hi0 && lo == Min(lo0, ivs[first].lo) && hi == Max(hi0, ivs[last - 1].hi)
      invariant first < last ==> ivs[last - 1].lo <= hi0
      invariant first < count ==> lo0 <= ivs[first].hi
    {
      lo, hi := Min(lo, a[last].lo), Max(hi, a[last].hi);
      last := last + 1;
    }
    ScansFindWindow(ivs, lo0, hi0, first, last, lo, hi);
    ReplacedCanonical(ivs, lo0, hi0, first, last, lo, hi);
    forall x: nat ensures Covers(Replaced(ivs, first, last, lo, hi), x) <==> Covers(ivs, x) || lo0 <= x < hi0 {
      ReplacedCovers(ivs, lo0, hi0, first, last, lo, hi, x);
    }
    if first == last && count == MAX_EXEC_INTERVALS {
      assert |Replaced(ivs, first, last, lo, hi)| == MAX_EXEC_INTERVALS + 1;
      return None;
    }
    var n := Shift(a, count, first, last, Interval(lo, hi));
    return Some(n);
  }

  /** What the two scans find. */
  lemma ScansFindWindow(ivs: seq<Interval>, lo0: nat, hi0: nat, first: nat, last: nat, lo: nat, hi: nat)
    requires Canonical(ivs) && first <= last <= |ivs| && lo <= lo0 < hi0 <= hi
    requires forall k :: 0 <= k < first ==> ivs[k].hi < lo0
    requires last < |ivs| ==> hi < ivs[last].lo
    requires first == last ==> lo == lo0 && hi == hi0
    requires forall k :: first <= k < last ==> lo <= ivs[k].lo && ivs[k].hi <= hi
    requires first < last ==>
      ivs[first].lo <= hi0 && lo0 <= ivs[first].hi && lo == Min(lo0, ivs[first].lo) && hi == Max(hi0, ivs[last - 1].hi)
    requires first < last ==> ivs[last - 1].lo <= hi0
    ensures Window(ivs, lo0, hi0, first, last, lo, hi)
  {
  }

  /** Make room for, or close up around, the interval that replaces entries [first, last). */
  method Shift(a: array<Interval>, count: nat, first: nat, last: nat, iv: Interval) returns (n: nat)
    requires a.Length == MAX_EXEC_INTERVALS && first <= last <= count <= MAX_EXEC_INTERVALS
    requires first == last ==> count < MAX_EXEC_INTERVALS
    modifies a
    ensures n <= MAX_EXEC_INTERVALS && a[..n] == Replaced(old(a[..count]), first, last, iv.lo, iv.hi)
  {
    hide Replaced;
    if first == last {
      ShiftUp(a, count, first);
      a[first] := iv;
      n := count + 1;
    } else {
      a[first] := iv;
      ShiftDown(a, count, first, last);
      n := count - (last - first - 1);
    }
    ghost var ivs := old(a[..count]);
    ReplacedLength(ivs, first, last, iv.lo, iv.hi);
    forall k | 0 <= k < n ensures a[k] == Replaced(ivs, first, last, iv.lo, iv.hi)[k] {
      ReplacedAt(ivs, first, last, iv.lo, iv.hi, k);
    }
  }

  lemma ReplacedLength(ivs: seq<Interval>, first: nat, last: nat, lo: nat, hi: nat)
    requires first <= last <= |ivs|
    ensures |Replaced(ivs, first, last, lo, hi)| == |ivs| - (last - first) + 1
  {
  }

  method ShiftUp(a: array<Interval>, count: nat, first: nat)
    requires first <= count < a.Length
    modifies a
    ensures forall k :: 0 <= k < first ==> a[k] == old(a[k])
    ensures forall k :: first < k <= count ==> a[k] == old(a[k - 1])
  {
    var index := count;
    while index > first
      invariant first <= index <= count
      invariant forall k :: 0 <= k < index ==> a[k] == old(a[k])
      invariant forall k :: index < k <= count ==> a[k] == old(a[k - 1])
    {
      index := index - 1;
      a[index + 1] := a[index];
    }
  }

  method ShiftDown(a: array<Interval>, count: nat, first: nat, last: nat)
    requires first < last <= count <= a.Length
    modifies a
    ensures forall k :: 0 <= k <= first ==> a[k] == old(a[k])
    ensures var removed := last - first - 1; forall k {:trigger a[k]} :: first < k < count - removed ==>
      a[k] == old(a[..])[k + removed]
  {
    var removed := last - first - 1;
    var index := last;
    ghost var before := a[..];
    while index < count
      invariant last <= index <= count
      invariant forall k :: 0 <= k <= first ==> a[k] == before[k]
      invariant forall k {:trigger a[k]} :: first < k < index - removed ==> a[k] == before[k + removed]
      invariant forall k :: index <= k < count ==> a[k] == before[k]
    {
      a[index - removed] := a[index];
      index := index + 1;
    }
  }

  // ----- Scanning the program headers ----------------------------------------------

  /** What one program header contributes. */
  datatype Slot = Bad | Skipped | Range(lo: nat, hi: nat)

  /** The fields a header needs are read only when they matter; a read past the end is malformed. */
  function SlotAt(data: seq<byte>, at: nat): Slot {
    if at + 8 > |data| then Bad
    else if Read(data, at, 4) != 1 || Read(data, at + 4, 4) % 2 == 0 then Skipped
    else if at + 48 > |data| then Bad
    else
      var lo, size := Read(data, at + 16, 8), Read(data, at + 40, 8);
      if lo + size >= U64 then Bad else if size == 0 then Skipped else Range(lo, lo + size)
  }

  predicate HeaderOk(data: seq<byte>) {
    |data| >= 64 && data[..4] == [0x7f, 0x45, 0x4c, 0x46] && data[4] == 2 && PhEntSize(data) >= 56
  }

  function Slots(data: seq<byte>): seq<Slot>
    requires HeaderOk(data)
  {
    seq(PhNum(data), i requires 0 <= i < PhNum(data) => SlotAt(data, PhOff(data) + i * PhEntSize(data)))
  }

  /** Address `x` lies in one of the first `n` executable segments. */
  ghost predicate InSlots(slots: seq<Slot>, n: nat, x: nat) {
    exists i :: 0 <= i < n && i < |slots| && slots[i].Range? && slots[i].lo <= x < slots[i].hi
  }

  /** `ivs` is the union of the first `n` executable segments, as separate intervals. */
  ghost predicate UnionOf(ivs: seq<Interval>, slots: seq<Slot>, n: nat) {
    Canonical(ivs) && forall x: nat :: Covers(ivs, x) <==> InSlots(slots, n, x)
  }

  lemma RangesNonempty(data: seq<byte>, i: nat)
    requires HeaderOk(data) && i < |Slots(data)| && Slots(data)[i].Range?
    ensures Slots(data)[i].lo < Slots(data)[i].hi
  {
  }

  lemma UnionStep(g: seq<Interval>, f: seq<Interval>, slots: seq<Slot>, n: nat)
    requires n < |slots| && UnionOf(f, slots, n) && Canonical(g)
    requires if slots[n].Range? then Extends(g, f, slots[n].lo, slots[n].hi) else g == f
    ensures UnionOf(g, slots, n + 1)
  {
    forall x: nat ensures Covers(g, x) <==> InSlots(slots, n + 1, x) {
      assert Covers(f, x) <==> InSlots(slots, n, x);
      StepIn(slots, n, x);
    }
  }

  lemma StepIn(slots: seq<Slot>, n: nat, x: nat)
    requires n < |slots|
    ensures InSlots(slots, n + 1, x) <==> InSlots(slots, n, x) || (slots[n].Range? && slots[n].lo <= x < slots[n].hi)
  {
  }

  /** The union of the first `n` executable segments has more parts than the array holds. */
  ghost predicate TooMany(slots: seq<Slot>, n: nat) {
    exists big: seq<Interval> :: |big| > 64 && UnionOf(big, slots, n)
  }

  /** Some prefix without a malformed header has too many parts. */
  ghost predicate Overflows(slots: seq<Slot>) {
    exists n: nat :: n <= |slots| && Bad !in slots[..n] && TooMany(slots, n)
  }

  ghost predicate SomeRange(slots: seq<Slot>) {
    exists i :: 0 <= i < |slots| && slots[i].Range?
  }

  /** A union that fits is the only one. */
  lemma Fits(ivs: seq<Interval>, slots: seq<Slot>, n: nat)
    requires UnionOf(ivs, slots, n) && |ivs| <= MAX_EXEC_INTERVALS
    ensures !TooMany(slots, n)
  {
    hide Covers, InSlots, Canonical;
    if big: seq<Interval> :| |big| > 64 && UnionOf(big, slots, n) {
      forall x: nat ensures Covers(ivs, x) <==> Covers(big, x) {
        assert InSlots(slots, n, x) <==> Covers(ivs, x);
      }
      CanonicalUnique(ivs, big);
      assert false;
    }
  }

  /**
    What the scan decides: a table is merged exactly when no header is malformed, one of them is executable and
    no prefix has too many parts; it is refused for capacity exactly when a prefix without malformed headers has.
   */
  ghost predicate ScanResult(data: seq<byte>, res: Result) {
    && (res.Merged? <==> HeaderOk(data) && Bad !in Slots(data) && SomeRange(Slots(data)) && !Overflows(Slots(data)))
    && (res == Rejected(Capacity) <==> HeaderOk(data) && Overflows(Slots(data)))
    && (res.Merged? ==> 0 < |res.intervals| <= MAX_EXEC_INTERVALS && UnionOf(res.intervals, Slots(data), |Slots(data)|))
  }

  /** The scan's result is determined. */
  lemma ScanDecides(data: seq<byte>, r: Result, q: Result)
    requires ScanResult(data, r) && ScanResult(data, q)
    ensures r == q
  {
    hide Covers, InSlots, Canonical, Overflows, HeaderOk, SomeRange;
    if r.Merged? {
      forall x: nat ensures Covers(r.intervals, x) <==> Covers(q.intervals, x) {
        assert InSlots(Slots(data), |Slots(data)|, x) <==> Covers(r.intervals, x);
      }
      CanonicalUnique(r.intervals, q.intervals);
    } else {
      match (r.error, q.error) {
        case (Malformed, Malformed) =>
        case (Capacity, Capacity) =>
        case _ =>
      }
    }
  }

  /** A malformed header after prefixes that fit. */
  lemma StopsAtBad(data: seq<byte>, index: nat)
    requires HeaderOk(data) && index < |Slots(data)| && Slots(data)[index] == Bad
    requires forall n: nat :: n <= index ==> !TooMany(Slots(data), n)
    ensures ScanResult(data, Rejected(Malformed))
  {
    hide TooMany, HeaderOk, Slots;
    var slots := Slots(data);
    forall n: nat | index < n <= |slots| ensures Bad in slots[..n] {
      assert slots[..n][index] == Bad;
    }
  }

  /** Prefixes that fit, and one more interval that does not. */
  lemma StopsFull(data: seq<byte>, index: nat, before: seq<Interval>, big: seq<Interval>)
    requires HeaderOk(data) && index < |Slots(data)| && Slots(data)[index].Range? && UnionOf(before, Slots(data), index)
    requires Bad !in Slots(data)[..index]
    requires Canonical(big) && |big| == MAX_EXEC_INTERVALS + 1
    requires Extends(big, before, Slots(data)[index].lo, Slots(data)[index].hi)
    ensures ScanResult(data, Rejected(Capacity))
  {
    hide HeaderOk, Slots, Canonical, UnionOf, Extends;
    var slots := Slots(data);
    assert slots[..index + 1] == slots[..index] + [slots[index]];
    UnionStep(big, before, slots, index);
    TooManyNow(big, slots, index + 1);
  }

  /** One header further. */
  lemma OneMore(slots: seq<Slot>, index: nat, before: seq<Interval>, after: seq<Interval>)
    requires index < |slots| && slots[index] != Bad && UnionOf(before, slots, index) && Bad !in slots[..index]
    requires |after| <= MAX_EXEC_INTERVALS
    requires forall n: nat :: n <= index ==> !TooMany(slots, n)
    requires if slots[index].Range? then Canonical(after) && Extends(after, before, slots[index].lo, slots[index].hi)
      else after == before
    ensures UnionOf(after, slots, index + 1) && Bad !in slots[..index + 1]
    ensures forall n: nat :: n <= index + 1 ==> !TooMany(slots, n)
  {
    hide TooMany, UnionOf, Extends, Canonical;
    assert slots[..index + 1] == slots[..index] + [slots[index]];
    UnionCanonical(before, slots, index);
    UnionStep(after, before, slots, index);
    Fits(after, slots, index + 1);
  }

  /**
    The executable ranges of an image, merged. An accepted table gives the canonical list of the union
    of all executable PT_LOAD ranges; otherwise a header is malformed, there is no executable range, or the
    union of some prefix of the table has more than 64 separate parts.
   */
  method ExecutableIntervals(data: seq<byte>) returns (res: Result)
    ensures ScanResult(data, res)
  {
    hide TooMany, UnionOf, ScanResult, Canonical, Extends;
    if !HeaderOk(data) {
      NoHeader(data);
      return Rejected(Malformed);
    }
    var intervals := new Interval[MAX_EXEC_INTERVALS](_ => Interval(0, 0));
    var count, index := 0, 0;
    ghost var slots := Slots(data);
    NothingYet(slots, intervals[..count]);
    while index < PhNum(data)
      invariant 0 <= index <= PhNum(data) && count <= MAX_EXEC_INTERVALS
      invariant UnionOf(intervals[..count], slots, index) && Bad !in slots[..index]
      invariant forall n: nat :: n <= index ==> !TooMany(slots, n)
    {
      var slot := SlotAt(data, PhOff(data) + index * PhEntSize(data));
      assert slot == slots[index];
      ghost var before := intervals[..count];
      match slot {
        case Bad =>
          StopsAtBad(data, index);
          return Rejected(Malformed);
        case Skipped =>
        case Range(lo, hi) =>
          UnionCanonical(before, slots, index);
          RangesNonempty(data, index);
          var next := InsertInterval(intervals, count, lo, hi);
          if next.None? {
            ghost var big: seq<Interval> :| Canonical(big) && |big| == MAX_EXEC_INTERVALS + 1
                                            && Extends(big, before, lo, hi);
            StopsFull(data, index, before, big);
            return Rejected(Capacity);
          }
          count := next.value;
      }
      OneMore(slots, index, before, intervals[..count]);
      index := index + 1;
    }
    assert slots[..index] == slots;
    Merges(data, intervals[..count]);
    return if count == 0 then Rejected(Malformed) else Merged(intervals[..count]);
  }

  lemma NoHeader(data: seq<byte>)
    requires !HeaderOk(data)
    ensures ScanResult(data, Rejected(Malformed))
  {
  }

  lemma UnionCanonical(ivs: seq<Interval>, slots: seq<Slot>, n: nat)
    requires UnionOf(ivs, slots, n)
    ensures Canonical(ivs)
  {
  }

  lemma TooManyNow(big: seq<Interval>, slots: seq<Slot>, n: nat)
    requires UnionOf(big, slots, n) && |big| > MAX_EXEC_INTERVALS
    ensures TooMany(slots, n)
  {
  }

  lemma NothingYet(slots: seq<Slot>, ivs: seq<Interval>)
    requires ivs == []
    ensures UnionOf(ivs, slots, 0) && forall n: nat :: n <= 0 ==> !TooMany(slots, n)
  {
    Fits([], slots, 0);
  }

  /** The whole table has been scanned: it is merged unless it has no executable range. */
  lemma Merges(data: seq<byte>, ivs: seq<Interval>)
    requires HeaderOk(data) && Bad !in Slots(data) && UnionOf(ivs, Slots(data), |Slots(data)|)
    requires |ivs| <= MAX_EXEC_INTERVALS
    requires forall n: nat :: n <= |Slots(data)| ==> !TooMany(Slots(data), n)
    ensures ScanResult(data, if ivs == [] then Rejected(Malformed) else Merged(ivs))
  {
    hide TooMany;
    var slots := Slots(data);
    if ivs != [] {
      assert Covers(ivs, ivs[0].lo);
      assert InSlots(slots, |slots|, ivs[0].lo);
      assert SomeRange(slots);
    }
    if SomeRange(slots) {
      var i :| 0 <= i < |slots| && slots[i].Range?;
      RangesNonempty(data, i);
      assert InSlots(slots, |slots|, slots[i].lo);
      assert Covers(ivs, slots[i].lo);
    }
  }

  /** Membership of an instruction address in the merged list. */
  method RipInIntervals(intervals: seq<Interval>, rip: nat) returns (found: bool)
    ensures found == Covers(intervals, rip)
  {
    var i := 0;
    while i < |intervals|
      invariant 0 <= i <= |intervals| && forall k :: 0 <= k < i ==> !(intervals[k].lo <= rip < intervals[k].hi)
    {
      if intervals[i].lo <= rip < intervals[i].hi {
        return true;
      }
      i := i + 1;
    }
    return false;
  }

  /** Looking an address up in the merged list agrees with scanning every program header. */
  method RipIsExecutable(data: seq<byte>, rip: nat) returns (found: Option<bool>)
    ensures found.Some? <==> HeaderOk(data) && Bad !in Slots(data) && SomeRange(Slots(data)) && !Overflows(Slots(data))
    ensures found.Some? ==> (found.value <==> InSlots(Slots(data), |Slots(data)|, rip))
  {
    var res := ExecutableIntervals(data);
    if res.Rejected? {
      return None;
    }
    var b := RipInIntervals(res.intervals, rip);
    return Some(b);
  }

  /** Two accepted images with the same executable addresses, in whatever header order, give the same list. */
  lemma OrderIndependent(d: seq<byte>, e: seq<byte>, f: seq<Interval>, g: seq<Interval>)
    requires ScanResult(d, Merged(f)) && ScanResult(e, Merged(g))
    requires multiset(Slots(d)) == multiset(Slots(e))
    ensures f == g
  {
    forall x: nat ensures Covers(f, x) <==> Covers(g, x) {
      if InSlots(Slots(d), |Slots(d)|, x) {
        SameSlots(Slots(d), Slots(e), x);
      }
      if InSlots(Slots(e), |Slots(e)|, x) {
        SameSlots(Slots(e), Slots(d), x);
      }
      assert Covers(f, x) <==> InSlots(Slots(d), |Slots(d)|, x);
      assert Covers(g, x) <==> InSlots(Slots(e), |Slots(e)|, x);
    }
    CanonicalUnique(f, g);
  }

  lemma SameSlots(s: seq<Slot>, t: seq<Slot>, x: nat)
    requires multiset(s) == multiset(t) && InSlots(s, |s|, x)
    ensures InSlots(t, |t|, x)
  {
    var i :| 0 <= i < |s| && s[i].Range? && s[i].lo <= x < s[i].hi;
    assert s[i] in multiset(s);
    assert s[i] in t;
    var j :| 0 <= j < |t| && t[j] == s[i];
  }

  // ----- The order of the headers decides whether a table fits -----------------------

  ghost predicate AllRanges(slots: seq<Slot>) {
    forall i :: 0 <= i < |slots| ==> slots[i].Range? && slots[i].lo < slots[i].hi < U64
  }

  function SegmentTable(slots: seq<Slot>): (b: seq<byte>)
    requires AllRanges(slots)
    ensures |b| == 56 * |slots|
  {
    if slots == [] then []
    else SegmentTable(slots[..|slots| - 1]) + SegmentHeader(slots[|slots| - 1].lo, slots[|slots| - 1].hi)
  }

  /** A file with exactly these executable segments, in this order. */
  function Image(slots: seq<Slot>): seq<byte>
    requires AllRanges(slots)
  {
    FileHeader(0, |slots|) + SegmentTable(slots)
  }

  lemma HeaderReads(n: nat, rest: seq<byte>)
    requires n < 0x10000
    ensures var data := FileHeader(0, n) + rest;
      HeaderOk(data) && PhOff(data) == 64 && PhEntSize(data) == 56 && PhNum(data) == n
  {
    hide FileHeader, Read;
    FileHeaderReads(0, n, rest);
  }

  /** The scan needs an ELF file of class 64 whose program headers are long enough. */
  lemma HeaderOkIs(data: seq<byte>, h: Elf64Ehdr)
    requires EhdrFits(h) && HasBytes(data, 0, EhdrBytes(h))
    ensures HeaderOk(data) <==> h.magic == [0x7f, 0x45, 0x4c, 0x46] && h.bits == 2 && h.phentsize >= 56
  {
    hide EhdrBytes, Read, HasBytes;
    EhdrReads(data, h);
  }

  /** What any program header contributes, by its fields. */
  lemma SlotReads(data: seq<byte>, at: nat, h: Elf64Phdr)
    requires PhdrFits(h) && HasBytes(data, at, PhdrBytes(h))
    ensures SlotAt(data, at) ==
      if h.pType != 1 || h.flags % 2 == 0 then Skipped
      else if h.vaddr + h.memsz >= U64 then Bad
      else if h.memsz == 0 then Skipped
      else Range(h.vaddr, h.vaddr + h.memsz)
  {
    hide PhdrBytes, Read, HasBytes;
    PhdrReads(data, at, h);
  }

  lemma SegmentReads(pre: seq<byte>, lo: nat, hi: nat, post: seq<byte>)
    requires lo < hi < U64
    ensures SlotAt(pre + SegmentHeader(lo, hi) + post, |pre|) == Range(lo, hi)
  {
    hide SegmentHeader, Read;
    SegmentHeaderReads(pre, lo, hi, post);
  }

  lemma {:induction false} TableSplit(slots: seq<Slot>, i: nat) returns (pre: seq<byte>, post: seq<byte>)
    requires AllRanges(slots) && i < |slots|
    ensures SegmentTable(slots) == pre + SegmentHeader(slots[i].lo, slots[i].hi) + post && |pre| == 56 * i
  {
    hide SegmentHeader;
    var last := |slots| - 1;
    if i == last {
      return SegmentTable(slots[..last]), [];
    }
    pre, post := TableSplit(slots[..last], i);
    var h := SegmentHeader(slots[last].lo, slots[last].hi);
    assert pre + SegmentHeader(slots[i].lo, slots[i].hi) + post + h ==
      pre + SegmentHeader(slots[i].lo, slots[i].hi) + (post + h);
    post := post + h;
  }

  /** Every sequence of executable ranges is what some file's headers contribute. */
  lemma ImageSlots(slots: seq<Slot>)
    requires AllRanges(slots) && |slots| < 0x10000
    ensures HeaderOk(Image(slots)) && Slots(Image(slots)) == slots
  {
    hide SlotAt, FileHeader, SegmentHeader, HeaderOk, PhOff, PhEntSize, PhNum;
    var data := Image(slots);
    HeaderReads(|slots|, SegmentTable(slots));
    forall i | 0 <= i < |slots| ensures Slots(data)[i] == slots[i] {
      var pre, post := TableSplit(slots, i);
      var h := SegmentHeader(slots[i].lo, slots[i].hi);
      assert data == (FileHeader(0, |slots|) + pre) + h + post;
      SegmentReads(FileHeader(0, |slots|) + pre, slots[i].lo, slots[i].hi, post);
    }
  }

  /** 65 one-byte ranges with gaps between them. */
  function Singles(): (s: seq<Slot>)
    ensures |s| == 65
  {
    seq(65, (i: nat) => Range(4 * i, 4 * i + 1))
  }

  lemma SinglesRanges()
    ensures AllRanges([Cover()] + Singles()) && AllRanges(Singles() + [Cover()])
  {
  }

  /** A range over all of them. */
  function Cover(): Slot { Range(0, 300) }

  /** With the covering range first, every prefix is one interval. */
  lemma CoverFirst(n: nat)
    requires 0 < n <= 66
    ensures UnionOf([Interval(0, 300)], [Cover()] + Singles(), n)
  {
    var slots, ivs := [Cover()] + Singles(), [Interval(0, 300)];
    forall x: nat ensures Covers(ivs, x) <==> InSlots(slots, n, x) {
      if x < 300 {
        assert ivs[0].lo <= x < ivs[0].hi && slots[0].lo <= x < slots[0].hi;
      }
    }
  }

  /** The first 65 ranges alone are 65 separate intervals. */
  lemma SinglesFirst()
    ensures TooMany(Singles() + [Cover()], 65)
  {
    var slots := Singles() + [Cover()];
    var big := seq(65, (i: nat) => Interval(4 * i, 4 * i + 1));
    forall x: nat ensures Covers(big, x) <==> InSlots(slots, 65, x) {
      if i :| 0 <= i < |big| && big[i].lo <= x < big[i].hi {
        assert slots[i].lo <= x < slots[i].hi;
      }
      if i :| 0 <= i < 65 && slots[i].Range? && slots[i].lo <= x < slots[i].hi {
        assert big[i].lo <= x < big[i].hi;
      }
    }
    assert UnionOf(big, slots, 65);
  }

  /**
    Two files with the same headers in another order: one is merged into a single interval, the other refused
    for capacity.
   */
  lemma OrderMatters() returns (d: seq<byte>, e: seq<byte>)
    ensures HeaderOk(d) && HeaderOk(e) && multiset(Slots(d)) == multiset(Slots(e))
    ensures ScanResult(d, Merged([Interval(0, 300)])) && ScanResult(e, Rejected(Capacity))
  {
    hide HeaderOk, Slots, ScanResult, Singles, Image;
    var a, b := [Cover()] + Singles(), Singles() + [Cover()];
    SinglesRanges();
    d, e := Image(a), Image(b);
    ImageSlots(a);
    ImageSlots(b);
    CoverAccepted(d);
    SinglesRefused(e);
    Rotated(Cover(), Singles());
  }

  lemma Rotated(x: Slot, s: seq<Slot>)
    ensures multiset([x] + s) == multiset(s + [x])
  {
  }

  lemma CoverAccepted(d: seq<byte>)
    requires HeaderOk(d) && Slots(d) == [Cover()] + Singles()
    ensures ScanResult(d, Merged([Interval(0, 300)]))
  {
    hide HeaderOk, Slots, UnionOf, TooMany;
    var a := Slots(d);
    forall n: nat | n <= |a| ensures !TooMany(a, n) {
      if n == 0 {
        NothingYet(a, []);
      } else {
        CoverFirst(n);
        Fits([Interval(0, 300)], a, n);
      }
    }
    CoverFirst(66);
    assert a[0].Range?;
  }

  lemma SinglesRefused(e: seq<byte>)
    requires HeaderOk(e) && Slots(e) == Singles() + [Cover()]
    ensures ScanResult(e, Rejected(Capacity))
  {
    hide HeaderOk, Slots, UnionOf, TooMany;
    SinglesFirst();
    assert Bad !in Slots(e)[..65];
  }
}
