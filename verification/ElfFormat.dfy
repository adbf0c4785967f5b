/**
  ELF64 headers as elf.rs reads them (System V gABI chapter 5, "Program Header") and
  the checks made before anything is mapped.
 */
module ElfFormat {
  import opened Prelude
  import opened PageTables

  const ELF_STACK_PAGES: nat := 16
  const ELF_STACK_TOP_PAGE: nat := 0x2200000
  const ELF_STACK_LOW: nat := 0x21F0000
  const USER_ADDR_LIMIT: nat := 0x8000_0000_0000

  datatype ElfError = BadMagic | BadClass | BadEndian | BadMachine | BadType | InvalidAddress | FixedStackOverlap
    | MappingCollision | InvalidEntry | Truncated | Oom | MetadataOom

  /** The fields of a program header the loader uses. */
  datatype Phdr = Phdr(load: bool, exec: bool, offset: nat, vaddr: nat, filesz: nat, memsz: nat)

  // ----- Reading ----------------------------------------------------------------

  function LittleEndian(bytes: seq<byte>): nat {
    if bytes == [] then 0 else bytes[0] + 256 * LittleEndian(bytes[1..])
  }

  function Read(data: seq<byte>, offset: nat, size: nat): nat
    requires offset + size <= |data|
  {
    LittleEndian(data[offset..offset + size])
  }

  function ReadPhdr(data: seq<byte>, at: nat): Phdr
    requires at + 56 <= |data|
  {
    Phdr(Read(data, at, 4) == 1, Read(data, at + 4, 4) % 2 == 1, Read(data, at + 8, 8), Read(data, at + 16, 8),
         Read(data, at + 32, 8), Read(data, at + 40, 8))
  }

  function PhOff(data: seq<byte>): nat requires |data| >= 64 { Read(data, 32, 8) }

  function PhEntSize(data: seq<byte>): nat requires |data| >= 64 { Read(data, 54, 2) }

  function PhNum(data: seq<byte>): nat requires |data| >= 64 { Read(data, 56, 2) }

  function EntryPoint(data: seq<byte>): nat requires |data| >= 64 { Read(data, 24, 8) }

  /** Identification, machine, type and the extent of the program header table. */
  function HeaderError(data: seq<byte>): Option<ElfError> {
    if |data| < 64 then Some(Truncated)
    else if data[..4] != [0x7f, 0x45, 0x4c, 0x46] then Some(BadMagic)
    else if data[4] != 2 then Some(BadClass)
    else if data[5] != 1 then Some(BadEndian)
    else if Read(data, 18, 2) != 0x3E then Some(BadMachine)
    else if Read(data, 16, 2) != 2 then Some(BadType)
    else if PhEntSize(data) < 56 then Some(Truncated)
    else if PhOff(data) + PhNum(data) * PhEntSize(data) > |data| then Some(Truncated)
    else None
  }

  lemma {:induction false} EntryInTable(off: nat, i: nat, n: nat, size: nat, len: nat)
    requires i < n && 56 <= size && off + n * size <= len
    ensures off + i * size + 56 <= len
  {
    assert n * size == (n - 1) * size + size;
    if i + 1 < n {
      EntryInTable(off, i, n - 1, size, len);
    }
  }

  /** The program header table. */
  function Phdrs(data: seq<byte>): seq<Phdr>
    requires HeaderError(data).None?
  {
    seq(PhNum(data), i requires 0 <= i < PhNum(data) =>
      EntryInTable(PhOff(data), i, PhNum(data), PhEntSize(data), |data|);
      ReadPhdr(data, PhOff(data) + i * PhEntSize(data)))
  }

  // ----- Segments ---------------------------------------------------------------

  function Down(v: nat): (r: nat)
    ensures r % 0x1000 == 0 && r <= v < r + 0x1000
  {
    v - v % 0x1000
  }

  function Up(v: nat): (r: nat)
    ensures r % 0x1000 == 0 && v <= r < v + 0x1000
  {
    Down(v + 0xFFF)
  }

  /** `x` is one of the pages a segment is rounded out to. */
  predicate SegPage(ph: Phdr, x: nat) {
    ph.load && x % 0x1000 == 0 && Down(ph.vaddr) <= x < Up(ph.vaddr + ph.memsz)
  }

  predicate EntryIn(ph: Phdr, entry: nat) {
    ph.load && ph.memsz > 0 && ph.exec && ph.vaddr <= entry < ph.vaddr + ph.memsz
  }

  /** Why the checks reject one program header of an image of `len` bytes. */
  function SegmentError(ph: Phdr, len: nat): Option<ElfError> {
    var end := ph.vaddr + ph.memsz;
    if !ph.load then None
    else if ph.filesz > ph.memsz then Some(Truncated)
    else if end >= U64 then Some(InvalidAddress)
    else if ph.memsz == 0 then None
    else if ph.vaddr < USER_CODE_ADDR || end > USER_ADDR_LIMIT then Some(InvalidAddress)
    else if Down(ph.vaddr) < USER_CODE_ADDR || Up(end) > USER_ADDR_LIMIT then Some(InvalidAddress)
    else if OverlapsKernelScratch(Down(ph.vaddr), Up(end)) then Some(InvalidAddress)
    else if Down(ph.vaddr) < ELF_STACK_TOP_PAGE + 0x1000 && Up(end) > ELF_STACK_LOW then Some(FixedStackOverlap)
    else if ph.offset + ph.filesz > len then Some(Truncated)
    else None
  }

  /** `x` is a user page that neither the scratch page nor the stack takes. */
  predicate LoadPage(x: nat) {
    && USER_CODE_ADDR <= x && x + 0x1000 <= USER_ADDR_LIMIT && !OverlapsKernelScratch(x, x + 0x1000)
    && !(ELF_STACK_LOW <= x <= ELF_STACK_TOP_PAGE)
  }

  /** A non-empty segment that passed maps user pages only, none of them reserved, and its file bytes exist. */
  lemma AcceptedSegment(ph: Phdr, len: nat, x: nat)
    requires SegmentError(ph, len).None? && ph.load && ph.memsz > 0 && SegPage(ph, x)
    ensures LoadPage(x) && ph.filesz <= ph.memsz && ph.offset + ph.filesz <= len
  {
  }

  /**
    The pages of an accepted segment are all such pages exactly when it is not empty, is aligned, or lies in
    such a page: the checks skip an empty segment, but an unaligned one is still rounded out to its page.
   */
  lemma AcceptedPages(ph: Phdr, len: nat)
    requires SegmentError(ph, len).None? && ph.load
    ensures (forall x: nat :: SegPage(ph, x) ==> LoadPage(x)) <==>
      ph.memsz > 0 || ph.vaddr % 0x1000 == 0 || LoadPage(Down(ph.vaddr))
  {
    hide LoadPage, SegmentError;
    if ph.memsz > 0 {
      forall x: nat | SegPage(ph, x) ensures LoadPage(x) {
        AcceptedSegment(ph, len, x);
      }
    } else {
      EmptySegmentPages(ph);
    }
  }

  /** An empty segment is rounded out to nothing when aligned, and to the page it lies in otherwise. */
  lemma EmptySegmentPages(ph: Phdr)
    requires ph.load && ph.memsz == 0
    ensures forall x: nat :: SegPage(ph, x) <==> ph.vaddr % 0x1000 != 0 && x == Down(ph.vaddr)
  {
    forall x: nat ensures SegPage(ph, x) <==> ph.vaddr % 0x1000 != 0 && x == Down(ph.vaddr) {
      if x % 0x1000 == 0 {
        Multiples(x, Down(ph.vaddr));
      }
    }
  }

  /** An accepted header whose one page lies below the user range. */
  lemma LowSegment(len: nat) returns (ph: Phdr)
    ensures ph == Phdr(true, true, 0, 0x1001, 0, 0) && SegmentError(ph, len).None? && SegPage(ph, 0x1000)
    ensures !LoadPage(0x1000)
  {
    ph := Phdr(true, true, 0, 0x1001, 0, 0);
  }

  /**
    What the checks accept, executable or not: a header that loads nothing, an empty segment below 2^64, and one whose
    pages are all user pages, none of them scratch or stack, whose file bytes exist and are no more than its bytes.
   */
  predicate Acceptable(ph: Phdr, len: nat) {
    ph.load ==>
      && ph.filesz <= ph.memsz && ph.vaddr + ph.memsz < U64
      && (ph.memsz > 0 ==>
          && 0x2000000 <= ph.vaddr && Up(ph.vaddr + ph.memsz) <= 0x8000_0000_0000 && ph.offset + ph.filesz <= len
          && (Up(ph.vaddr + ph.memsz) <= 0x4000_0000 || 0x4000_1000 <= Down(ph.vaddr))
          && (Up(ph.vaddr + ph.memsz) <= 0x21F_0000 || 0x220_1000 <= Down(ph.vaddr)))
  }

  lemma AcceptsExactly(ph: Phdr, len: nat)
    ensures SegmentError(ph, len).None? <==> Acceptable(ph, len)
  {
  }

  /** Every header is accepted and some executable segment holds the entry point. */
  ghost predicate Loadable(phs: seq<Phdr>, len: nat, entry: nat) {
    && (forall i :: 0 <= i < |phs| ==> SegmentError(phs[i], len).None?)
    && (exists i :: 0 <= i < |phs| && EntryIn(phs[i], entry))
  }

  /** `e` is the error of the first rejected header, or InvalidEntry when all pass and none holds the entry point. */
  ghost predicate FirstError(phs: seq<Phdr>, len: nat, entry: nat, e: ElfError) {
    if e == InvalidEntry then forall i :: 0 <= i < |phs| ==> SegmentError(phs[i], len).None? && !EntryIn(phs[i], entry)
    else exists i ::
      && 0 <= i < |phs| && SegmentError(phs[i], len) == Some(e)
      && forall k :: 0 <= k < i ==> SegmentError(phs[k], len).None?
  }

  /** The scan over all program headers before loading: None exactly for loadable images. */
  method Validate(phs: seq<Phdr>, len: nat, entry: nat) returns (err: Option<ElfError>)
    ensures err.None? <==> Loadable(phs, len, entry)
    ensures err.Some? ==> FirstError(phs, len, entry, err.value)
  {
    var entryExecutable := false;
    var i := 0;
    while i < |phs|
      invariant 0 <= i <= |phs| && forall k :: 0 <= k < i ==> SegmentError(phs[k], len).None?
      invariant entryExecutable <==> exists k :: 0 <= k < i && EntryIn(phs[k], entry)
    {
      var e := SegmentError(phs[i], len);
      if e.Some? {
        return e;
      }
      if EntryIn(phs[i], entry) {
        entryExecutable := true;
      }
      i := i + 1;
    }
    return if entryExecutable then None else Some(InvalidEntry);
  }

  // ----- The order of the pages -------------------------------------------------

  /** The pages from `v` to `end` in order, after those `seen` and without them. */
  function Visit(seen: seq<nat>, v: nat, end: nat): seq<nat>
    decreases if v < end then end - v else 0
  {
    if v >= end then seen
    else Visit(if v in seen then seen else seen + [v], v + 0x1000, end)
  }

  /** The pages of the first `n` segments in the order they are mapped. */
  function Visits(phs: seq<Phdr>, n: nat): seq<nat>
    requires n <= |phs|
  {
    if n == 0 then []
    else if !phs[n - 1].load then Visits(phs, n - 1)
    else Visit(Visits(phs, n - 1), Down(phs[n - 1].vaddr), Up(phs[n - 1].vaddr + phs[n - 1].memsz))
  }

  lemma {:induction false} VisitPrefix(seen: seq<nat>, v: nat, end: nat)
    ensures seen <= Visit(seen, v, end)
    decreases if v < end then end - v else 0
  {
    if v < end {
      VisitPrefix(if v in seen then seen else seen + [v], v + 0x1000, end);
    }
  }

  lemma {:induction false} VisitsPrefix(phs: seq<Phdr>, n: nat, k: nat)
    requires n <= k <= |phs|
    ensures Visits(phs, n) <= Visits(phs, k)
  {
    if n < k {
      VisitsPrefix(phs, n, k - 1);
      if phs[k - 1].load {
        VisitPrefix(Visits(phs, k - 1), Down(phs[k - 1].vaddr), Up(phs[k - 1].vaddr + phs[k - 1].memsz));
      }
    }
  }

  predicate Distinct(vs: seq<nat>) {
    forall a, b :: 0 <= a < b < |vs| ==> vs[a] != vs[b]
  }

  lemma {:induction false} VisitAdds(seen: seq<nat>, v: nat, end: nat, x: nat)
    requires v % 0x1000 == 0 && Distinct(seen)
    ensures Distinct(Visit(seen, v, end))
    ensures x in Visit(seen, v, end) <==> x in seen || (x % 0x1000 == 0 && v <= x < end)
    decreases if v < end then end - v else 0
  {
    if v < end {
      VisitAdds(if v in seen then seen else seen + [v], v + 0x1000, end, x);
      if x % 0x1000 == 0 {
        Multiples(v, x);
      }
    }
  }

  /** They are the pages of these segments, each once. */
  lemma {:induction false} VisitsAre(phs: seq<Phdr>, n: nat, x: nat)
    requires n <= |phs|
    ensures Distinct(Visits(phs, n))
    ensures x in Visits(phs, n) <==> exists i :: 0 <= i < n && SegPage(phs[i], x)
  {
    hide Visit, Down, Up;
    if n > 0 {
      VisitsAre(phs, n - 1, x);
      var ph := phs[n - 1];
      if ph.load {
        VisitAdds(Visits(phs, n - 1), Down(ph.vaddr), Up(ph.vaddr + ph.memsz), x);
      }
    }
  }

  // ----- What the image means ---------------------------------------------------

  /** Segment `ph` has a file byte for address `x`. */
  predicate FileCovers(ph: Phdr, x: nat) {
    ph.load && ph.vaddr <= x < ph.vaddr + ph.filesz
  }

  ghost predicate FilesInside(phs: seq<Phdr>, len: nat) {
    forall i :: 0 <= i < |phs| && phs[i].load && phs[i].filesz > 0 ==> phs[i].offset + phs[i].filesz <= len
  }

  /** Byte at `x` once the first `n` segments are in: the last file byte covering it, else 0. */
  function Want(data: seq<byte>, phs: seq<Phdr>, n: nat, x: nat): byte
    requires n <= |phs| && FilesInside(phs, |data|)
  {
    if n == 0 then 0
    else if FileCovers(phs[n - 1], x) then data[phs[n - 1].offset + (x - phs[n - 1].vaddr)]
    else Want(data, phs, n - 1, x)
  }

  /** `Want` is the file byte of the last segment in table order that covers `x`, and 0 when none does. */
  lemma {:induction false} WantIsLast(data: seq<byte>, phs: seq<Phdr>, n: nat, x: nat, i: nat)
    requires n <= |phs| && FilesInside(phs, |data|) && i <= n
    requires forall k :: i <= k < n ==> !FileCovers(phs[k], x)
    ensures i > 0 && FileCovers(phs[i - 1], x) ==>
      Want(data, phs, n, x) == data[phs[i - 1].offset + (x - phs[i - 1].vaddr)]
    ensures i == 0 ==> Want(data, phs, n, x) == 0
  {
    if i < n {
      WantIsLast(data, phs, n - 1, x, i);
    }
  }

  /** The first `n` segments, and `c` bytes of the next one. */
  function WantPart(data: seq<byte>, phs: seq<Phdr>, n: nat, c: nat, x: nat): byte
    requires n <= |phs| && FilesInside(phs, |data|)
    requires n == |phs| ==> c == 0
    requires c > 0 ==> phs[n].load && c <= phs[n].filesz
  {
    if c > 0 && phs[n].vaddr <= x < phs[n].vaddr + c then data[phs[n].offset + (x - phs[n].vaddr)]
    else Want(data, phs, n, x)
  }

  /** A page no earlier segment touches holds no file byte yet. */
  lemma {:induction false} WantUntouched(data: seq<byte>, phs: seq<Phdr>, n: nat, v: nat, x: nat)
    requires n <= |phs| && FilesInside(phs, |data|) && v % 0x1000 == 0 && v <= x < v + 0x1000
    requires forall i :: 0 <= i < n ==> !SegPage(phs[i], v) && (phs[i].load ==> phs[i].filesz <= phs[i].memsz)
    ensures Want(data, phs, n, x) == 0
  {
    if n > 0 {
      if FileCovers(phs[n - 1], x) {
        FilePage(phs[n - 1], v, x);
        assert false;
      }
      WantUntouched(data, phs, n - 1, v, x);
    }
  }

  /** The page of a file byte is a page of the segment. */
  lemma FilePage(ph: Phdr, v: nat, x: nat)
    requires FileCovers(ph, x) && ph.filesz <= ph.memsz && v % 0x1000 == 0 && v <= x < v + 0x1000
    ensures SegPage(ph, v)
  {
    var d, u := Down(ph.vaddr), Up(ph.vaddr + ph.memsz);
    Multiples(d, v);
    Multiples(v, u);
  }

  /** Page-aligned numbers are at least a page apart. */
  lemma Multiples(a: nat, b: nat)
    requires a % 0x1000 == 0 && b % 0x1000 == 0
    ensures a < b + 0x1000 ==> a <= b
    ensures a < b ==> a + 0x1000 <= b
  {
  }

  // ----- Writing headers ----------------------------------------------------------

  function Encode(v: nat, size: nat): (b: seq<byte>)
    ensures |b| == size
  {
    if size == 0 then [] else [v % 256] + Encode(v / 256, size - 1)
  }

  function Pow256(n: nat): nat {
    if n == 0 then 1 else 256 * Pow256(n - 1)
  }

  lemma {:induction false} Decoded(v: nat, size: nat)
    requires v < Pow256(size)
    ensures LittleEndian(Encode(v, size)) == v
  {
    if size > 0 {
      Decoded(v / 256, size - 1);
      assert Encode(v, size)[1..] == Encode(v / 256, size - 1);
    }
  }

  function Zeros(n: nat): (b: seq<byte>)
    ensures |b| == n
  {
    seq(n, _ => 0)
  }

  // ----- The file format ------------------------------------------------------------

  /** Elf64_Ehdr, field by field; `bits` is its class and `ident` what follows the byte order. */
  datatype Elf64Ehdr = Elf64Ehdr(magic: seq<byte>, bits: byte, endian: byte, ident: seq<byte>, eType: nat,
                                 machine: nat, version: nat, entry: nat, phoff: nat, shoff: nat, flags: nat,
                                 ehsize: nat, phentsize: nat, phnum: nat, shentsize: nat, shnum: nat, shstrndx: nat)

  predicate EhdrFits(h: Elf64Ehdr) {
    && |h.magic| == 4 && |h.ident| == 10 && h.eType < 0x10000 && h.machine < 0x10000 && h.version < 0x1_0000_0000
    && h.entry < U64 && h.phoff < U64 && h.shoff < U64 && h.flags < 0x1_0000_0000 && h.ehsize < 0x10000
    && h.phentsize < 0x10000 && h.phnum < 0x10000 && h.shentsize < 0x10000 && h.shnum < 0x10000 && h.shstrndx < 0x10000
  }

  function EhdrFront(h: Elf64Ehdr): (b: seq<byte>)
    requires |h.magic| == 4 && |h.ident| == 10
    ensures |b| == 40
  {
    h.magic + [h.bits, h.endian] + h.ident + Encode(h.eType, 2) + Encode(h.machine, 2) + Encode(h.version, 4)
    + Encode(h.entry, 8) + Encode(h.phoff, 8)
  }

  function EhdrBack(h: Elf64Ehdr): (b: seq<byte>)
    ensures |b| == 24
  {
    Encode(h.shoff, 8) + Encode(h.flags, 4) + Encode(h.ehsize, 2) + Encode(h.phentsize, 2) + Encode(h.phnum, 2)
    + Encode(h.shentsize, 2) + Encode(h.shnum, 2) + Encode(h.shstrndx, 2)
  }

  function EhdrBytes(h: Elf64Ehdr): (b: seq<byte>)
    requires |h.magic| == 4 && |h.ident| == 10
    ensures |b| == 64
  {
    EhdrFront(h) + EhdrBack(h)
  }

  /** Elf64_Phdr, field by field. */
  datatype Elf64Phdr = Elf64Phdr(pType: nat, flags: nat, offset: nat, vaddr: nat, paddr: nat, filesz: nat, memsz: nat,
                                 align: nat)

  predicate PhdrFits(h: Elf64Phdr) {
    && h.pType < 0x1_0000_0000 && h.flags < 0x1_0000_0000 && h.offset < U64 && h.vaddr < U64 && h.paddr < U64
    && h.filesz < U64 && h.memsz < U64 && h.align < U64
  }

  function PhdrBytes(h: Elf64Phdr): (b: seq<byte>)
    ensures |b| == 56
  {
    Encode(h.pType, 4) + Encode(h.flags, 4) + Encode(h.offset, 8) + Encode(h.vaddr, 8) + Encode(h.paddr, 8)
    + Encode(h.filesz, 8) + Encode(h.memsz, 8) + Encode(h.align, 8)
  }

  /** The file has these bytes from `at` on. */
  predicate HasBytes(data: seq<byte>, at: nat, b: seq<byte>) {
    at + |b| <= |data| && data[at..at + |b|] == b
  }

  lemma Powers()
    ensures Pow256(2) == 0x10000 && Pow256(4) == 0x1_0000_0000 && Pow256(8) == U64
  {
    assert Pow256(2) == 0x10000;
    assert Pow256(4) == 0x10000 * Pow256(2);
    assert Pow256(6) == 0x10000 * Pow256(4);
    assert Pow256(8) == 0x10000 * Pow256(6);
  }

  lemma HasPart(data: seq<byte>, at: nat, pre: seq<byte>, mid: seq<byte>, post: seq<byte>)
    requires HasBytes(data, at, pre + mid + post)
    ensures HasBytes(data, at + |pre|, mid)
  {
    var b, k := pre + mid + post, |pre|;
    assert b[k..k + |mid|] == mid;
    assert data[at..at + |b|][k..k + |mid|] == data[at + k..at + k + |mid|];
  }

  /** A number found after `pre`. */
  lemma FieldReads(data: seq<byte>, at: nat, pre: seq<byte>, v: nat, size: nat, post: seq<byte>)
    requires HasBytes(data, at, pre + Encode(v, size) + post) && v < Pow256(size)
    ensures at + |pre| + size <= |data| && Read(data, at + |pre|, size) == v
  {
    hide Encode, LittleEndian, Pow256;
    HasPart(data, at, pre, Encode(v, size), post);
    Decoded(v, size);
  }

  /** A program header anywhere in a file is read back, field for field. */
  lemma PhdrReads(data: seq<byte>, at: nat, h: Elf64Phdr)
    requires PhdrFits(h) && HasBytes(data, at, PhdrBytes(h))
    ensures at + 56 <= |data| && Read(data, at, 4) == h.pType && Read(data, at + 4, 4) == h.flags
    ensures Read(data, at + 16, 8) == h.vaddr && Read(data, at + 40, 8) == h.memsz
    ensures ReadPhdr(data, at) == Phdr(h.pType == 1, h.flags % 2 == 1, h.offset, h.vaddr, h.filesz, h.memsz)
  {
    hide Encode, Read, Pow256, HasBytes;
    Powers();
    var a, b := Encode(h.pType, 4), Encode(h.flags, 4);
    var c, d, e := Encode(h.offset, 8), Encode(h.vaddr, 8), Encode(h.paddr, 8);
    var f, g, i := Encode(h.filesz, 8), Encode(h.memsz, 8), Encode(h.align, 8);
    assert PhdrBytes(h) == [] + a + (b + c + d + e + f + g + i);
    FieldReads(data, at, [], h.pType, 4, b + c + d + e + f + g + i);
    assert PhdrBytes(h) == a + b + (c + d + e + f + g + i);
    FieldReads(data, at, a, h.flags, 4, c + d + e + f + g + i);
    assert PhdrBytes(h) == (a + b) + c + (d + e + f + g + i);
    FieldReads(data, at, a + b, h.offset, 8, d + e + f + g + i);
    assert PhdrBytes(h) == (a + b + c) + d + (e + f + g + i);
    FieldReads(data, at, a + b + c, h.vaddr, 8, e + f + g + i);
    assert PhdrBytes(h) == (a + b + c + d + e) + f + (g + i);
    FieldReads(data, at, a + b + c + d + e, h.filesz, 8, g + i);
    assert PhdrBytes(h) == (a + b + c + d + e + f) + g + i;
    FieldReads(data, at, a + b + c + d + e + f, h.memsz, 8, i);
    assert PhdrBytes(h) == (a + b + c + d + e + f + g) + i + [];
    FieldReads(data, at, a + b + c + d + e + f + g, h.align, 8, []);
  }

  /** So is the file header. */
  lemma EhdrReads(data: seq<byte>, h: Elf64Ehdr)
    requires EhdrFits(h) && HasBytes(data, 0, EhdrBytes(h))
    ensures |data| >= 64 && data[..4] == h.magic && data[4] == h.bits && data[5] == h.endian
    ensures Read(data, 16, 2) == h.eType && Read(data, 18, 2) == h.machine && EntryPoint(data) == h.entry
    ensures PhOff(data) == h.phoff && PhEntSize(data) == h.phentsize && PhNum(data) == h.phnum
  {
    hide EhdrFront, EhdrBack, Read;
    assert EhdrBytes(h) == [] + EhdrFront(h) + EhdrBack(h) == EhdrFront(h) + EhdrBack(h) + [];
    HasPart(data, 0, [], EhdrFront(h), EhdrBack(h));
    HasPart(data, 0, EhdrFront(h), EhdrBack(h), []);
    EhdrStart(data, h);
    FrontReads(data, h);
    BackReads(data, h);
  }

  lemma FrontReads(data: seq<byte>, h: Elf64Ehdr)
    requires EhdrFits(h) && HasBytes(data, 0, EhdrFront(h)) && |data| >= 64
    ensures Read(data, 16, 2) == h.eType && Read(data, 18, 2) == h.machine && EntryPoint(data) == h.entry
    ensures PhOff(data) == h.phoff
  {
    hide Encode, Read, Pow256, HasBytes;
    Powers();
    var id := h.magic + [h.bits, h.endian] + h.ident;
    var t, m, v := Encode(h.eType, 2), Encode(h.machine, 2), Encode(h.version, 4);
    var e, p := Encode(h.entry, 8), Encode(h.phoff, 8);
    var b := EhdrFront(h);
    assert b == id + t + (m + v + e + p);
    FieldReads(data, 0, id, h.eType, 2, m + v + e + p);
    assert b == (id + t) + m + (v + e + p);
    FieldReads(data, 0, id + t, h.machine, 2, v + e + p);
    assert b == (id + t + m + v) + e + p;
    FieldReads(data, 0, id + t + m + v, h.entry, 8, p);
    assert b == (id + t + m + v + e) + p + [];
    FieldReads(data, 0, id + t + m + v + e, h.phoff, 8, []);
  }

  lemma BackReads(data: seq<byte>, h: Elf64Ehdr)
    requires EhdrFits(h) && HasBytes(data, 40, EhdrBack(h)) && |data| >= 64
    ensures PhEntSize(data) == h.phentsize && PhNum(data) == h.phnum
  {
    hide Encode, Read, Pow256, HasBytes;
    Powers();
    var front := Encode(h.shoff, 8) + Encode(h.flags, 4) + Encode(h.ehsize, 2);
    var s, n := Encode(h.phentsize, 2), Encode(h.phnum, 2);
    var rest := Encode(h.shentsize, 2) + Encode(h.shnum, 2) + Encode(h.shstrndx, 2);
    var b := EhdrBack(h);
    assert b == front + s + (n + rest);
    FieldReads(data, 40, front, h.phentsize, 2, n + rest);
    assert b == (front + s) + n + rest;
    FieldReads(data, 40, front + s, h.phnum, 2, rest);
  }

  lemma EhdrStart(data: seq<byte>, h: Elf64Ehdr)
    requires EhdrFits(h) && HasBytes(data, 0, EhdrBytes(h))
    ensures |data| >= 64 && data[..4] == h.magic && data[4] == h.bits && data[5] == h.endian
  {
    hide Encode;
    var b := EhdrBytes(h);
    assert data[0..64] == b;
    assert data[..4] == b[..4] == h.magic;
    assert data[4] == b[4] && data[5] == b[5];
  }

  /** Which error a file header gives, or that the table of program headers is read. */
  lemma HeaderErrors(data: seq<byte>, h: Elf64Ehdr)
    requires EhdrFits(h) && HasBytes(data, 0, EhdrBytes(h))
    ensures HeaderError(data) ==
      if h.magic != [0x7f, 0x45, 0x4c, 0x46] then Some(BadMagic)
      else if h.bits != 2 then Some(BadClass)
      else if h.endian != 1 then Some(BadEndian)
      else if h.machine != 62 then Some(BadMachine)
      else if h.eType != 2 then Some(BadType)
      else if h.phentsize < 56 || h.phoff + h.phnum * h.phentsize > |data| then Some(Truncated)
      else None
  {
    hide EhdrBytes, Read, HasBytes;
    EhdrReads(data, h);
  }

  /** The file has program header `h` as entry `i` of its table. */
  predicate HeaderAt(data: seq<byte>, i: nat, h: Elf64Phdr) {
    && HeaderError(data).None? && i < PhNum(data) && PhdrFits(h)
    && HasBytes(data, PhOff(data) + i * PhEntSize(data), PhdrBytes(h))
  }

  /** None of the headers from `from` up to `to` has a file byte for address `x`. */
  predicate NoFileByte(data: seq<byte>, from: nat, to: nat, x: nat) {
    HeaderError(data).None? && forall k :: from <= k < to && k < |Phdrs(data)| ==> !FileCovers(Phdrs(data)[k], x)
  }

  /** Program header `i` of an accepted file, wherever its table lies, is what the file has there. */
  lemma PhdrsRead(data: seq<byte>, i: nat, h: Elf64Phdr)
    requires HeaderAt(data, i, h)
    ensures Phdrs(data)[i] == Phdr(h.pType == 1, h.flags % 2 == 1, h.offset, h.vaddr, h.filesz, h.memsz)
  {
    hide PhdrBytes, Read, HasBytes;
    PhdrReads(data, PhOff(data) + i * PhEntSize(data), h);
  }

  // ----- Every file is of this form -----------------------------------------------------

  lemma {:induction false} Encoded(b: seq<byte>)
    ensures LittleEndian(b) < Pow256(|b|) && Encode(LittleEndian(b), |b|) == b
  {
    if b != [] {
      Encoded(b[1..]);
    }
  }

  /** The field of `size` bytes at `k`. */
  function Field(b: seq<byte>, k: nat, size: nat): nat
    requires k + size <= |b|
  {
    LittleEndian(b[k..k + size])
  }

  lemma FieldEncoded(b: seq<byte>, k: nat, size: nat)
    requires k + size <= |b|
    ensures Encode(Field(b, k, size), size) == b[k..k + size] && Field(b, k, size) < Pow256(size)
  {
    Encoded(b[k..k + size]);
  }

  /** Any 56 bytes are a program header. */
  lemma AnyPhdr(b: seq<byte>) returns (h: Elf64Phdr)
    requires |b| == 56
    ensures PhdrFits(h) && PhdrBytes(h) == b
  {
    hide Encode, Field, Pow256;
    Powers();
    h := Elf64Phdr(Field(b, 0, 4), Field(b, 4, 4), Field(b, 8, 8), Field(b, 16, 8), Field(b, 24, 8), Field(b, 32, 8),
                   Field(b, 40, 8), Field(b, 48, 8));
    FieldEncoded(b, 0, 4);
    FieldEncoded(b, 4, 4);
    FieldEncoded(b, 8, 8);
    FieldEncoded(b, 16, 8);
    FieldEncoded(b, 24, 8);
    FieldEncoded(b, 32, 8);
    FieldEncoded(b, 40, 8);
    FieldEncoded(b, 48, 8);
    assert b == b[0..4] + b[4..8] + b[8..16] + b[16..24] + b[24..32] + b[32..40] + b[40..48] + b[48..56];
  }

  /** So every header the loader goes by is one the file has, field for field. */
  lemma PhdrsAre(data: seq<byte>, i: nat) returns (h: Elf64Phdr)
    requires HeaderError(data).None? && i < PhNum(data)
    ensures HeaderAt(data, i, h)
    ensures Phdrs(data)[i] == Phdr(h.pType == 1, h.flags % 2 == 1, h.offset, h.vaddr, h.filesz, h.memsz)
  {
    hide PhdrBytes, Read;
    var at := PhOff(data) + i * PhEntSize(data);
    EntryInTable(PhOff(data), i, PhNum(data), PhEntSize(data), |data|);
    h := AnyPhdr(data[at..at + 56]);
    PhdrsRead(data, i, h);
  }

  // ----- Files without file bytes -----------------------------------------------------------

  /** The header of an executable with entry point `entry` and `n` program headers right after it. */
  function FileHeader(entry: nat, n: nat): (b: seq<byte>)
    ensures |b| == 64
  {
    EhdrBytes(PlainEhdr(entry, n))
  }

  function PlainEhdr(entry: nat, n: nat): Elf64Ehdr {
    Elf64Ehdr([0x7f, 0x45, 0x4c, 0x46], 2, 1, Zeros(10), 2, 62, 1, entry, 64, 0, 0, 64, 56, n, 64, 0, 0)
  }

  /** An executable PT_LOAD header for [lo, hi), without file bytes. */
  function SegmentHeader(lo: nat, hi: nat): (b: seq<byte>)
    requires lo <= hi
    ensures |b| == 56
  {
    PhdrBytes(Elf64Phdr(1, 1, 0, lo, 0, 0, hi - lo, 0))
  }

  lemma FileHeaderReads(entry: nat, n: nat, rest: seq<byte>)
    requires entry < U64 && n < 0x10000
    ensures var data := FileHeader(entry, n) + rest;
      && data[..4] == [0x7f, 0x45, 0x4c, 0x46] && data[4] == 2 && data[5] == 1
      && Read(data, 16, 2) == 2 && Read(data, 18, 2) == 0x3E && EntryPoint(data) == entry
      && PhOff(data) == 64 && PhEntSize(data) == 56 && PhNum(data) == n
  {
    hide EhdrBytes, Read;
    EhdrReads(FileHeader(entry, n) + rest, PlainEhdr(entry, n));
  }

  lemma SegmentHeaderReads(pre: seq<byte>, lo: nat, hi: nat, post: seq<byte>)
    requires lo <= hi < U64
    ensures var data := pre + SegmentHeader(lo, hi) + post;
      && Read(data, |pre|, 4) == 1 && Read(data, |pre| + 4, 4) == 1 && Read(data, |pre| + 16, 8) == lo
      && Read(data, |pre| + 40, 8) == hi - lo
      && ReadPhdr(data, |pre|) == Phdr(true, true, 0, lo, 0, hi - lo)
  {
    hide PhdrBytes, Read;
    PhdrReads(pre + SegmentHeader(lo, hi) + post, |pre|, Elf64Phdr(1, 1, 0, lo, 0, 0, hi - lo, 0));
  }
}
