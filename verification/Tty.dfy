/**
  The terminal line discipline (tty.rs): input bytes edit a line buffer, completed
  lines go to a ring buffer that readers drain. Echo output is left out; `blocked` is the
  set of processes in state Blocked and `interrupted` those given SIGINT.
 */
module Tty {
  import opened Prelude

  const BUF_SIZE: nat := 4096
  const LINE_MAX: nat := 255

  // ----- What typing means ------------------------------------------------------

  /** Completed bytes, and the line being edited. */
  datatype Edited = Edited(out: seq<byte>, line: seq<byte>)

  function DropLast(s: seq<byte>): seq<byte> {
    if s == [] then [] else s[..|s| - 1]
  }

  function Typed(e: Edited, c: byte): Edited {
    if |e.line| < LINE_MAX then Edited(e.out, e.line + [c]) else e
  }

  /** The effect of one byte in canonical mode. */
  function Key(e: Edited, c: byte): Edited {
    if c == 0x08 || c == 0x7F then Edited(e.out, DropLast(e.line))
    else if c == 0x03 then Edited(e.out + [0x0A], [])
    else if c == 0x0D || c == 0x0A then Edited(e.out + e.line + [0x0A], [])
    else if c == 0x09 then Typed(e, c)
    else if c == 0x1b then e
    else if c >= 0x20 then Typed(e, c)
    else e
  }

  /** Everything typed so far. */
  function Edit(canonical: bool, input: seq<byte>): Edited {
    if input == [] then Edited([], [])
    else
      var e, c := Edit(canonical, input[..|input| - 1]), input[|input| - 1];
      if canonical then Key(e, c) else Edited(e.out + [c], e.line)
  }

  lemma EditStep(canonical: bool, input: seq<byte>, c: byte)
    ensures Edit(canonical, input + [c]) ==
      var e := Edit(canonical, input); if canonical then Key(e, c) else Edited(e.out + [c], e.line)
  {
    assert (input + [c])[..|input|] == input;
  }

  predicate Printable(c: byte) {
    (c >= 0x20 && c != 0x7F) || c == 0x09
  }

  /** The line never exceeds 255 bytes and holds only bytes that were typed as text. */
  lemma {:induction false} LineBounded(input: seq<byte>)
    ensures |Edit(true, input).line| <= 255
    ensures forall i :: 0 <= i < |Edit(true, input).line| ==> Printable(Edit(true, input).line[i])
  {
    if input != [] {
      LineBounded(input[..|input| - 1]);
    }
  }

  function Kept(text: seq<byte>): seq<byte> {
    if |text| < 255 then text else text[..255]
  }

  lemma KeptStep(e: Edited, text: seq<byte>, c: byte)
    requires Printable(c) && e.line == Kept(text)
    ensures Key(e, c) == Edited(e.out, Kept(text + [c]))
  {
    assert |text| >= LINE_MAX ==> (text + [c])[..LINE_MAX] == text[..LINE_MAX];
  }

  /** Typing text at the start of a line shows that text, capped at 255 bytes. */
  lemma {:induction false} TextTyped(input: seq<byte>, text: seq<byte>)
    requires Edit(true, input).line == [] && forall i :: 0 <= i < |text| ==> Printable(text[i])
    ensures Edit(true, input + text) == Edited(Edit(true, input).out, Kept(text))
  {
    hide Edit, Key;
    if text == [] {
      assert input + text == input;
    } else {
      var rest, c := text[..|text| - 1], text[|text| - 1];
      TextTyped(input, rest);
      assert input + text == input + rest + [c] && rest + [c] == text;
      EditStep(true, input + rest, c);
      KeptStep(Edit(true, input + rest), rest, c);
    }
  }

  /** Typing text and then Enter, or a newline, completes exactly that text, capped at 255 bytes. */
  lemma LineTyped(input: seq<byte>, text: seq<byte>, enter: byte)
    requires Edit(true, input).line == [] && forall i :: 0 <= i < |text| ==> Printable(text[i])
    requires enter == 0x0D || enter == 0x0A
    ensures Edit(true, input + text + [enter]) == Edited(Edit(true, input).out + Kept(text) + [0x0A], [])
  {
    TextTyped(input, text);
    EditStep(true, input + text, enter);
  }

  /** In raw mode every byte is completed as it comes. */
  lemma {:induction false} RawMode(input: seq<byte>)
    ensures Edit(false, input) == Edited(input, [])
  {
    if input != [] {
      RawMode(input[..|input| - 1]);
    }
  }

  /** Erase takes back the last byte of text, as long as it was not past the cap. */
  lemma EraseUndoes(input: seq<byte>, c: byte, erase: byte)
    requires Printable(c) && (erase == 0x08 || erase == 0x7F) && |Edit(true, input).line| < LINE_MAX
    ensures Edit(true, input + [c] + [erase]) == Edit(true, input)
  {
    hide Edit;
    EditStep(true, input, c);
    EditStep(true, input + [c], erase);
  }

  /** Ctrl-C discards the line, whatever it was, and completes a bare newline. */
  lemma InterruptDiscards(input: seq<byte>)
    ensures Edit(true, input + [0x03]) == Edited(Edit(true, input).out + [0x0A], [])
  {
    EditStep(true, input, 0x03);
  }

  /** Escape and every other control byte that has no meaning of its own changes nothing. */
  lemma ControlIgnored(input: seq<byte>, c: byte)
    requires c < 0x20 && c !in {0x03, 0x08, 0x09, 0x0A, 0x0D}
    ensures Edit(true, input + [c]) == Edit(true, input)
  {
    EditStep(true, input, c);
  }

  /** Erasing on an empty line changes nothing. */
  lemma EraseNothing(input: seq<byte>, erase: byte)
    requires (erase == 0x08 || erase == 0x7F) && Edit(true, input).line == []
    ensures Edit(true, input + [erase]) == Edit(true, input)
  {
    EditStep(true, input, erase);
  }

  /** Completed bytes are never taken back. */
  lemma {:induction false} OutGrows(canonical: bool, input: seq<byte>, more: seq<byte>)
    ensures Edit(canonical, input).out <= Edit(canonical, input + more).out
  {
    if more == [] {
      assert input + more == input;
    } else {
      var rest, c := more[..|more| - 1], more[|more| - 1];
      OutGrows(canonical, input, rest);
      assert input + more == input + rest + [c];
      EditStep(canonical, input + rest, c);
    }
  }

  /** How many bytes input byte `c` completes. */
  function Completed(canonical: bool, input: seq<byte>, c: byte): nat {
    var n, m := |Edit(canonical, input).out|, |Edit(canonical, input + [c]).out|;
    if m < n then 0 else m - n
  }

  predicate Completing(c: byte) {
    c == 0x03 || c == 0x0D || c == 0x0A
  }

  /** What a key does to the line and to the completed bytes. */
  lemma KeyParts(e: Edited, c: byte)
    ensures c == 0x03 ==> Key(e, c) == Edited(e.out + [0x0A], [])
    ensures c == 0x0D || c == 0x0A ==> Key(e, c) == Edited(e.out + e.line + [0x0A], [])
    ensures !Completing(c) ==> Key(e, c) == Edited(e.out, Key(Edited([], e.line), c).line)
  {
  }

  lemma Completes(canonical: bool, input: seq<byte>, c: byte)
    ensures Completed(canonical, input, c) ==
      if !canonical || c == 0x03 then 1 else if c == 0x0D || c == 0x0A then |Edit(canonical, input).line| + 1 else 0
  {
    hide Edit;
    EditStep(canonical, input, c);
  }

  // ----- The ring -----------------------------------------------------------------

  /** Index of the k-th byte of a ring that starts at `tail`. */
  function Slot(tail: nat, k: nat): nat {
    (tail + k) % BUF_SIZE
  }

  lemma SlotsDiffer(tail: nat, i: nat, j: nat)
    requires i < j < BUF_SIZE && tail < BUF_SIZE
    ensures Slot(tail, i) != Slot(tail, j)
  {
  }

  lemma SlotStep(tail: nat, i: nat)
    requires tail < BUF_SIZE
    ensures Slot(tail, i) < BUF_SIZE && (Slot(tail, i) + 1) % BUF_SIZE == Slot(tail, i + 1)
    ensures Slot((tail + 1) % BUF_SIZE, i) == Slot(tail, i + 1)
  {
  }

  lemma RingFull(tail: nat, n: nat)
    requires tail < BUF_SIZE && n < BUF_SIZE
    ensures Slot(tail, n + 1) == tail <==> n == BUF_SIZE - 1
    ensures Slot(tail, n) == tail <==> n == 0
  {
  }

  /** A ring whose bytes from `tail` up to `head` are `pending`. */
  ghost predicate RingHolds(buf: seq<byte>, head: nat, tail: nat, pending: seq<byte>) {
    && |buf| == BUF_SIZE && head < BUF_SIZE && tail < BUF_SIZE && |pending| < BUF_SIZE
    && head == Slot(tail, |pending|)
    && forall k :: 0 <= k < |pending| ==> buf[Slot(tail, k)] == pending[k]
  }

  /** Storing at `head` appends; `head` catches up with `tail` exactly when the ring is full. */
  lemma RingPush(buf: seq<byte>, head: nat, tail: nat, pending: seq<byte>, b: byte)
    requires RingHolds(buf, head, tail, pending)
    ensures |buf| == BUF_SIZE && head < BUF_SIZE && tail < BUF_SIZE
    ensures (head + 1) % BUF_SIZE == tail <==> |pending| == BUF_SIZE - 1
    ensures |pending| < BUF_SIZE - 1 ==> RingHolds(buf[head := b], (head + 1) % BUF_SIZE, tail, pending + [b])
  {
    RingFull(tail, |pending|);
    SlotStep(tail, |pending|);
    forall k | 0 <= k < |pending| ensures Slot(tail, k) != head {
      SlotsDiffer(tail, k, |pending|);
    }
  }

  /** Reading at `tail` takes the oldest byte. */
  lemma RingPop(buf: seq<byte>, head: nat, tail: nat, pending: seq<byte>)
    requires RingHolds(buf, head, tail, pending)
    ensures |buf| == BUF_SIZE && tail < BUF_SIZE && (tail == head <==> pending == [])
    ensures pending != [] ==> buf[tail] == pending[0] && RingHolds(buf, head, (tail + 1) % BUF_SIZE, pending[1..])
  {
    RingFull(tail, |pending|);
    if pending != [] {
      SlotStep(tail, |pending| - 1);
      RingFull(tail, 0);
      var next := (tail + 1) % BUF_SIZE;
      forall k | 0 <= k < |pending| - 1 ensures Slot(next, k) == Slot(tail, k + 1) {
        SlotStep(tail, k);
      }
    }
  }

  /** The blocked processes once the recorded reader, if any, is woken. */
  function Unblocked(blocked: set<nat>, waitingPid: nat): set<nat> {
    if waitingPid == 0 then blocked else blocked - {waitingPid}
  }

  class Terminal {
    const buf: array<byte>
    var head: nat
    var tail: nat
    const line: array<byte>
    var lineLen: nat
    const canonical: bool
    var waitingPid: nat
    var blocked: set<nat>
    var interrupted: set<nat>
    // History: bytes fed in, bytes handed to readers, bytes in the ring, and whether one was dropped.
    ghost var input: seq<byte>
    ghost var got: seq<byte>
    ghost var pending: seq<byte>
    ghost var lost: bool

    /** The ring holds `pending`; a recorded reader waits only while it is empty. */
    ghost predicate RingOk()
      reads this, buf
    {
      RingHolds(buf[..], head, tail, pending) && |pending| < BUF_SIZE && (waitingPid != 0 ==> pending == [])
    }

    ghost predicate LineOk()
      reads this, line
    {
      line.Length == LINE_MAX && lineLen <= LINE_MAX
    }

    /** What was read and what is ready to be read are, in order, what was completed. */
    ghost predicate Valid()
      reads this, buf, line
    {
      && RingOk() && LineOk() && buf != line
      && line[..lineLen] == Edit(canonical, input).line
      && (!lost ==> got + pending == Edit(canonical, input).out)
    }

    constructor (canonical: bool)
      ensures Valid() && fresh(buf) && fresh(line) && input == [] && got == [] && pending == [] && !lost
      ensures this.canonical == canonical && waitingPid == 0 && blocked == interrupted == {}
    {
      buf := new byte[BUF_SIZE](_ => 0);
      line := new byte[LINE_MAX](_ => 0);
      head, tail, lineLen, waitingPid, blocked, interrupted := 0, 0, 0, 0, {}, {};
      this.canonical := canonical;
      input, got, pending, lost := [], [], [], false;
    }

    /** Add a completed byte, dropped when the ring is full, and wake the waiting reader. */
    method PushByte(b: byte)
      requires RingOk()
      modifies this`head, this`waitingPid, this`blocked, this`pending, this`lost, buf
      ensures RingOk() && waitingPid == 0
      ensures pending == if |old(pending)| < 4095 then old(pending) + [b] else old(pending)
      ensures lost == (old(lost) || |old(pending)| == 4095)
      ensures blocked == Unblocked(old(blocked), old(waitingPid))
    {
      hide RingHolds;
      RingPush(buf[..], head, tail, pending, b);
      var next := (head + 1) % BUF_SIZE;
      if next != tail {
        ghost var before := buf[..];
        buf[head] := b;
        assert buf[..] == before[head := b];
        head := next;
        pending := pending + [b];
      } else {
        lost := true;
      }
      if waitingPid != 0 {
        blocked := blocked - {waitingPid};
        waitingPid := 0;
      }
    }

    /** Take the oldest completed byte. */
    method PopByte() returns (b: byte)
      requires RingOk() && pending != []
      modifies this`tail, this`pending, this`got
      ensures RingOk() && b == old(pending)[0] && pending == old(pending)[1..] && got == old(got) + [b]
    {
      hide RingHolds;
      RingPop(buf[..], head, tail, pending);
      b := buf[tail];
      tail := (tail + 1) % BUF_SIZE;
      got, pending := got + [b], pending[1..];
    }

    /** Enter: the line, then a newline. */
    method HandleEnter()
      requires RingOk() && LineOk() && buf != line
      modifies this, buf
      ensures RingOk() && LineOk() && lineLen == 0 && waitingPid == 0 && input == old(input) && got == old(got)
      ensures !lost ==> pending == old(pending) + old(line[..lineLen]) + [0x0A]
      ensures lost == (old(lost) || |old(pending)| + old(lineLen) + 1 > 4095)
      ensures blocked == Unblocked(old(blocked), old(waitingPid))
    {
      hide RingHolds;
      var i := 0;
      while i < lineLen
        invariant 0 <= i <= lineLen == old(lineLen) && RingOk() && LineOk() && input == old(input) && got == old(got)
        invariant !lost ==> pending == old(pending) + line[..i]
        invariant lost == (old(lost) || |old(pending)| + i > BUF_SIZE - 1)
        invariant !old(lost) && lost ==> |pending| == BUF_SIZE - 1
        invariant !lost ==> |pending| == |old(pending)| + i
        invariant waitingPid == (if i == 0 then old(waitingPid) else 0)
        invariant blocked == if i == 0 then old(blocked) else Unblocked(old(blocked), old(waitingPid))
      {
        PushByte(line[i]);
        i := i + 1;
      }
      PushByte(0x0A);
      lineLen := 0;
    }

    /** Ctrl-C: discard the line, interrupt a reader that is still blocked, complete a newline. */
    method HandleInterrupt()
      requires RingOk() && LineOk() && buf != line
      modifies this, buf
      ensures RingOk() && LineOk() && lineLen == 0 && waitingPid == 0 && input == old(input) && got == old(got)
      ensures !lost ==> pending == old(pending) + [0x0A]
      ensures lost == (old(lost) || |old(pending)| == 4095)
      ensures interrupted ==
        if old(waitingPid) != 0 && old(waitingPid) in old(blocked) then old(interrupted) + {old(waitingPid)}
        else old(interrupted)
      ensures blocked == Unblocked(old(blocked), old(waitingPid))
    {
      hide RingHolds;
      lineLen := 0;
      if waitingPid != 0 {
        if waitingPid in blocked {
          interrupted := interrupted + {waitingPid};
        } else {
          waitingPid := 0;
        }
      }
      PushByte(0x0A);
    }

    method TypeByte(c: byte)
      requires LineOk()
      modifies this`lineLen, line
      ensures LineOk() && line[..lineLen] == Typed(Edited([], old(line[..lineLen])), c).line
    {
      if lineLen < LINE_MAX {
        line[lineLen] := c;
        lineLen := lineLen + 1;
      }
    }

    /** A byte that only edits the line: erase, text, or one that is ignored. */
    method EditLine(c: byte)
      requires LineOk() && !Completing(c)
      modifies this`lineLen, line
      ensures LineOk() && line[..lineLen] == Key(Edited([], old(line[..lineLen])), c).line
    {
      if c == 0x08 || c == 0x7F {
        if lineLen > 0 {
          lineLen := lineLen - 1;
        }
      } else if c == 0x09 {
        TypeByte(c);
      } else if c == 0x1b {
      } else if c >= 0x20 {
        TypeByte(c);
      }
    }

    /** One input byte through the line discipline. */
    method ProcessByte(c: byte)
      requires Valid()
      modifies this, buf, line
      ensures Valid() && input == old(input) + [c] && got == old(got)
      ensures lost == (old(lost) || |old(pending)| + Completed(canonical, old(input), c) > 4095)
      ensures if Completed(canonical, old(input), c) > 0
              then waitingPid == 0 && blocked == Unblocked(old(blocked), old(waitingPid))
              else waitingPid == old(waitingPid) && blocked == old(blocked)
    {
      hide RingHolds, Edit, Completed, Key;
      EditStep(canonical, input, c);
      Completes(canonical, input, c);
      KeyParts(Edit(canonical, input), c);
      if !canonical {
        PushByte(c);
      } else if c == 0x03 {
        HandleInterrupt();
      } else if c == 0x0D || c == 0x0A {
        HandleEnter();
      } else {
        EditLine(c);
      }
      input := input + [c];
    }

    /** Feed what the keyboard and the serial port have, at most 64 bytes each, in that order. */
    method ProcessInput(keyboard: seq<byte>, serial: seq<byte>)
      requires Valid() && |keyboard| <= 64 && |serial| <= 64
      modifies this, buf, line
      ensures Valid() && input == old(input) + keyboard + serial && got == old(got) && (old(lost) ==> lost)
      ensures keyboard == serial == [] ==> blocked == old(blocked) && pending == old(pending) && lost == old(lost)
    {
      hide RingHolds, Edit;
      var i := 0;
      while i < |keyboard|
        invariant 0 <= i <= |keyboard| && Valid() && input == old(input) + keyboard[..i] && got == old(got)
        invariant (old(lost) ==> lost)
        invariant i == 0 ==> blocked == old(blocked) && pending == old(pending) && lost == old(lost)
      {
        ProcessByte(keyboard[i]);
        i := i + 1;
      }
      i := 0;
      while i < |serial|
        invariant 0 <= i <= |serial| && Valid() && input == old(input) + keyboard + serial[..i] && got == old(got)
        invariant (old(lost) ==> lost)
        invariant keyboard == [] && i == 0 ==> blocked == old(blocked) && pending == old(pending) && lost == old(lost)
      {
        ProcessByte(serial[i]);
        i := i + 1;
      }
    }

    /** Up to `len` completed bytes; with none, process `pid` is blocked and recorded as the reader. */
    method Read(len: nat, pid: nat, keyboard: seq<byte>, serial: seq<byte>) returns (data: seq<byte>)
      requires Valid() && |keyboard| <= 64 && |serial| <= 64
      modifies this, buf, line
      ensures Valid() && input == old(input) + keyboard + serial && got == old(got) + data && |data| <= len
      ensures (old(lost) ==> lost)
      ensures |data| < len ==> pending == []
      ensures data == [] && len > 0 && pid != 0 ==> waitingPid == pid && pid in blocked
      ensures keyboard == serial == old(pending) == [] && pid != 0 ==>
        data == pending == [] && waitingPid == pid && blocked == old(blocked) + {pid} && lost == old(lost)
    {
      hide RingHolds, Edit;
      ProcessInput(keyboard, serial);
      data := [];
      RingPop(buf[..], head, tail, pending);
      if tail != head {
        while tail != head && |data| < len
          invariant Valid() && input == old(input) + keyboard + serial && got == old(got) + data && |data| <= len
          invariant (old(lost) ==> lost)
          invariant tail != head <==> pending != []
          invariant data == [] ==> pending != []
          invariant keyboard == serial == [] ==> old(pending) != []
          decreases len - |data|
        {
          var b := PopByte();
          data := data + [b];
          RingPop(buf[..], head, tail, pending);
        }
        return;
      }
      if pid != 0 {
        blocked := blocked + {pid};
        waitingPid := pid;
      }
    }
  }

  /**
    Only the reader recorded last is woken, so with two readers the first is not: Enter is typed, nothing is
    recorded any more, and process 5 is still blocked.
   */
  method TwoReaders() returns (t: Terminal)
    ensures t.Valid() && 5 in t.blocked && 6 !in t.blocked && t.waitingPid == 0 && t.pending != []
  {
    hide RingHolds, Edit;
    t := new Terminal(true);
    var data := t.Read(1, 5, [], []);
    data := t.Read(1, 6, [], []);
    EditStep(true, [], 0x0D);
    NothingTyped();
    assert [] + [0x0D] == [0x0D];
    t.ProcessByte(0x0D);
  }

  lemma NothingTyped()
    ensures Edit(true, []) == Edited([], [])
  {
  }

  /** One use of the terminal: some input arriving, or a read. */
  datatype Event = Poll(keyboard: seq<byte>,
                        serial: seq<byte>) | ReadLine(len: nat, pid: nat, keyboard: seq<byte>, serial: seq<byte>)

  /**
    Any run: unless the ring overflowed, the bytes handed to readers are a prefix of the completed
    lines of everything typed, in order.
   */
  method Session(t: Terminal, events: seq<Event>)
    requires t.Valid() && forall i :: 0 <= i < |events| ==> |events[i].keyboard| <= 64 && |events[i].serial| <= 64
    modifies t, t.buf, t.line
    ensures t.Valid() && old(t.input) <= t.input && old(t.got) <= t.got
    ensures !t.lost ==> t.got <= Edit(t.canonical, t.input).out
  {
    hide RingHolds, Edit;
    var i := 0;
    while i < |events|
      invariant 0 <= i <= |events| && t.Valid() && old(t.input) <= t.input && old(t.got) <= t.got
    {
      match events[i] {
        case Poll(keyboard, serial) =>
          t.ProcessInput(keyboard, serial);
        case ReadLine(len, pid, keyboard, serial) =>
          var data := t.Read(len, pid, keyboard, serial);
      }
      i := i + 1;
    }
  }
}
