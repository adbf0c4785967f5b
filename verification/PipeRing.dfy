/**
  The ring buffer of a pipe (pipe.rs): absolute positions that wrap at 2^64, index
  `position % 4096`, one byte kept free.
 */
module PipeRing {
  import opened Prelude

  const PIPE_BUF_SIZE: nat := 4096

  /** Positions within one buffer length of each other have different indices. */
  lemma SlotsDiffer(i: nat, j: nat)
    requires i < j < i + PIPE_BUF_SIZE
    ensures i % PIPE_BUF_SIZE != j % PIPE_BUF_SIZE
  {
  }

  /** Wrapping a position at 2^64 does not move its slot. */
  lemma WrapKeepsSlot(n: nat)
    ensures n % U64 % PIPE_BUF_SIZE == n % PIPE_BUF_SIZE
  {
    var q, r := n / U64, n % U64;
    assert n == q * U64 + r;
    assert q * U64 + r == (q * (U64 / PIPE_BUF_SIZE)) * PIPE_BUF_SIZE + r;
    MultipleDrops(q * (U64 / PIPE_BUF_SIZE), r);
  }

  lemma MultipleDrops(q: nat, r: nat)
    ensures (q * PIPE_BUF_SIZE + r) % PIPE_BUF_SIZE == r % PIPE_BUF_SIZE
  {
  }

  lemma WrapStep(n: nat)
    ensures (n + 1) % U64 == (n % U64 + 1) % U64
  {
  }

  /** The wrapped difference of two positions less than 2^64 apart. */
  lemma WrapDifference(r: nat, w: nat)
    requires r <= w < r + U64
    ensures (w % U64 + U64 - r % U64) % U64 == w - r
  {
    var qr, qw := r / U64, w / U64;
    assert r == qr * U64 + r % U64 && w == qw * U64 + w % U64;
    assert qr <= qw <= qr + 1;
  }

  class PipeBuf {
    const buf: array<byte>
    var readOff: nat
    var writeOff: nat
    // Everything ever written, and how much of it has been read.
    ghost var written: seq<byte>
    ghost var taken: nat

    ghost predicate Valid()
      reads this, buf
    {
      && buf.Length == PIPE_BUF_SIZE
      && taken <= |written| <= taken + PIPE_BUF_SIZE - 1
      && readOff == taken % U64 && writeOff == |written| % U64
      && forall k :: taken <= k < |written| ==> buf[k % PIPE_BUF_SIZE] == written[k]
    }

    constructor ()
      ensures Valid() && fresh(buf) && written == [] && taken == 0
    {
      buf := new byte[PIPE_BUF_SIZE](_ => 0);
      readOff, writeOff := 0, 0;
      written, taken := [], 0;
    }

    /** Bytes in flight, as the code computes it. */
    method InFlight() returns (n: nat)
      requires Valid()
      ensures n == |written| - taken
    {
      WrapDifference(taken, |written|);
      n := (writeOff + U64 - readOff) % U64;
    }

    method Dequeue() returns (b: byte)
      requires Valid() && taken < |written|
      modifies this`readOff, this`taken
      ensures Valid() && taken == old(taken) + 1 && b == written[old(taken)]
    {
      WrapKeepsSlot(taken);
      WrapStep(taken);
      b := buf[readOff % PIPE_BUF_SIZE];
      readOff := (readOff + 1) % U64;
      taken := taken + 1;
    }

    method Enqueue(b: byte)
      requires Valid() && |written| - taken < PIPE_BUF_SIZE - 1
      modifies this`writeOff, this`written, buf
      ensures Valid() && written == old(written) + [b]
    {
      WrapKeepsSlot(|written|);
      WrapStep(|written|);
      forall k | taken <= k < |written| ensures k % PIPE_BUF_SIZE != |written| % PIPE_BUF_SIZE {
        SlotsDiffer(k, |written|);
      }
      buf[writeOff % PIPE_BUF_SIZE] := b;
      writeOff := (writeOff + 1) % U64;
      written := written + [b];
    }

    /** The next bytes written and not yet read, in order, at most `len` of them. */
    method Read(len: nat) returns (data: seq<byte>)
      requires Valid()
      modifies this`readOff, this`taken
      ensures Valid() && taken == old(taken) + |data| && data == written[old(taken)..taken]
      ensures |data| == if len < |written| - old(taken) then len else |written| - old(taken)
    {
      var avail := InFlight();
      data := [];
      if avail == 0 {
        return;
      }
      var n := if len < avail then len else avail;
      var i := 0;
      while i < n
        invariant 0 <= i <= n && Valid() && taken == old(taken) + i && |data| == i && data == written[old(taken)..taken]
      {
        var b := Dequeue();
        data := data + [b];
        i := i + 1;
      }
    }

    /** Append as much of `data` as leaves one byte free. */
    method Write(data: seq<byte>) returns (n: nat)
      requires Valid()
      modifies this`writeOff, this`written, buf
      ensures Valid() && n <= |data| && written == old(written) + data[..n]
      ensures var room := 4095 - (|old(written)| - taken); n == if |data| < room then |data| else room
    {
      var used := InFlight();
      var space := PIPE_BUF_SIZE - 1 - used;
      if space == 0 {
        assert data[..0] == [];
        return 0;
      }
      n := if |data| < space then |data| else space;
      var i := 0;
      while i < n
        invariant 0 <= i <= n && Valid() && written == old(written) + data[..i]
      {
        assert data[..i + 1] == data[..i] + [data[i]];
        Enqueue(data[i]);
        i := i + 1;
      }
    }
  }

  /** One use of a pipe. */
  datatype Op = ReadOp(len: nat) | WriteOp(data: seq<byte>)

  /**
    Any run of reads and writes: what was read is a prefix of what was written, and at most 4095 bytes are
    in flight, however far the positions have wrapped.
   */
  method Run(p: PipeBuf, ops: seq<Op>) returns (got: seq<byte>)
    requires p.Valid()
    modifies p, p.buf
    ensures p.Valid() && old(p.written) <= p.written && old(p.taken) <= p.taken
    ensures got == p.written[old(p.taken)..p.taken] && old(p.written[..p.taken]) + got == p.written[..p.taken]
    ensures |p.written| - p.taken <= 4095
  {
    got := [];
    var i := 0;
    while i < |ops|
      invariant 0 <= i <= |ops| && p.Valid() && old(p.written) <= p.written && old(p.taken) <= p.taken
      invariant got == p.written[old(p.taken)..p.taken]
    {
      match ops[i] {
        case ReadOp(len) =>
          var data := p.Read(len);
          got := got + data;
        case WriteOp(data) =>
          var n := p.Write(data);
      }
      i := i + 1;
    }
  }
}
