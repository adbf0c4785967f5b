/**
  Signal delivery for one process (signal.rs): what is done with each pending signal, the frame
  saved on the user stack, and the way back (syscall_entry.asm).
 */
module Signals {
  import opened Prelude

  datatype ProcState = Ready | Running | Blocked | Zombie

  /** User registers: RAX, RCX, RDX, RBX, RBP, RSI, RDI, R8 to R15, then RIP, RSP and RFLAGS. */
  datatype Frame = Frame(gprs: seq<nat>, rip: nat, rsp: nat, rflags: nat)

  const RDI: nat := 6

  const SIG_DFL: nat := 0
  const SIG_IGN: nat := 1
  const SIGINT: nat := 2
  const SIGKILL: nat := 9
  const SIGUSR1: nat := 10
  const SIGUSR2: nat := 12
  const NUM_SIGS: nat := 32
  const SIGFRAME_SIZE: nat := 160
  const IDLE_PID: nat := 2

  /**
    A process. `frame` is the saved register frame, `pending` the 64-bit signal mask and `inWait` records that
    the process was blocked by waitpid.
   */
  datatype Proc = Proc(pid: nat, pml4: nat, state: ProcState, kstackTop: nat, parent: nat, exitCode: nat, waitFor: nat,
                       inWait: bool,
                       pending: seq<bool>, handlers: seq<nat>, inSignal: bool, sigframe: nat, stackLow: nat,
                       frame: Frame)

  // ----- Masks as words -----------------------------------------------------------

  function ToWord(bits: seq<bool>): nat {
    if bits == [] then 0 else (if bits[0] then 1 else 0) + 2 * ToWord(bits[1..])
  }

  function ToBits(n: nat, width: nat): (bits: seq<bool>)
    ensures |bits| == width
  {
    if width == 0 then [] else [n % 2 == 1] + ToBits(n / 2, width - 1)
  }

  /** A mask survives being stored as a word. */
  lemma {:induction false} MaskRoundTrip(bits: seq<bool>)
    ensures ToBits(ToWord(bits), |bits|) == bits
  {
    if bits != [] {
      MaskRoundTrip(bits[1..]);
    }
  }

  // ----- Shape of a process ---------------------------------------------------------

  /** SIGKILL keeps its default action, and a handler runs exactly while a saved frame exists. */
  predicate SignalOk(p: Proc) {
    && |p.pending| == 64 && |p.handlers| == NUM_SIGS && |p.frame.gprs| == 15
    && p.handlers[SIGKILL] == SIG_DFL
    && (p.inSignal <==> p.sigframe != 0)
    && (p.pid != IDLE_PID ==> 0 < p.stackLow < U64 - SIGFRAME_SIZE)
    && (p.pid == IDLE_PID ==> !p.inSignal)
  }

  predicate Quiet(pending: seq<bool>) {
    forall i :: 0 <= i < |pending| ==> !pending[i]
  }

  function Clear(p: Proc, sig: nat): Proc
    requires sig < |p.pending|
  {
    p.(pending := p.pending[sig := false])
  }

  predicate Fatal(sig: nat) {
    sig == SIGKILL || sig == SIGINT || sig == SIGUSR1 || sig == SIGUSR2
  }

  // ----- Delivery -------------------------------------------------------------------

  /** What delivery does: go on, kill with an exit code, or enter the handler of `sig`. */
  datatype Outcome = Continue(p: Proc) | Kill(p: Proc, code: nat) | Call(p: Proc, sig: nat)

  /** The guard on the user stack, with its 64-bit wrap. */
  predicate StackRoom(p: Proc) {
    p.frame.rsp >= (p.stackLow + SIGFRAME_SIZE) % U64
  }

  /** Redirect the register frame to handler `h` of `sig`, below the saved frame. */
  function Enter(p: Proc, sig: nat, h: nat): Proc
    requires |p.frame.gprs| == 15 && p.frame.rsp >= SIGFRAME_SIZE
  {
    var sp := p.frame.rsp - SIGFRAME_SIZE;
    p.(sigframe := sp, inSignal := true, frame := Frame(p.frame.gprs[RDI := sig], h, sp, p.frame.rflags))
  }

  /** The 20 words saved on the user stack. */
  function SavedWords(p: Proc, sig: nat): (w: seq<nat>)
    requires |p.frame.gprs| == 15
    ensures |w| == 20
  {
    p.frame.gprs + [p.frame.rflags, p.frame.rsp, p.frame.rip, sig, ToWord(p.pending)]
  }

  /** The delivery loop from signal `sig` up. */
  function Scan(p: Proc, sig: nat): (o: Outcome)
    requires SignalOk(p) && !p.inSignal && p.pid != IDLE_PID && 1 <= sig <= NUM_SIGS
    ensures o.p.(pending := p.pending, inSignal := p.inSignal, sigframe := p.sigframe, frame := p.frame) == p
    ensures |o.p.pending| == 64 && |o.p.frame.gprs| == 15
    ensures !o.Call? ==> o.p.(pending := p.pending) == p
    ensures o.Call? ==> o.p.inSignal && o.p.sigframe != 0 && sig <= o.sig < NUM_SIGS && p.pending[o.sig]
    decreases NUM_SIGS - sig
  {
    if sig == NUM_SIGS then Continue(p)
    else if !p.pending[sig] then Scan(p, sig + 1)
    else
      var h, q := p.handlers[sig], Clear(p, sig);
      if h == SIG_IGN then Scan(q, sig + 1)
      else if h == SIG_DFL then if Fatal(sig) then Kill(q, 128 + sig) else Scan(q, sig + 1)
      else if !StackRoom(q) then Kill(q, 128 + SIGKILL)
      else Call(Enter(q, sig, h), sig)
  }

  /** A loop that ends without a kill or a call has cleared every signal. */
  lemma {:induction false} ScanDone(p: Proc, sig: nat, k: nat)
    requires SignalOk(p) && !p.inSignal && p.pid != IDLE_PID && 1 <= sig <= k < NUM_SIGS && Scan(p, sig).Continue?
    ensures !Scan(p, sig).p.pending[k]
    decreases NUM_SIGS - sig
  {
    if !p.pending[sig] {
      if sig == k {
        ScanClears(p, sig + 1, k);
      } else {
        ScanDone(p, sig + 1, k);
      }
    } else if sig == k {
      ScanClears(Clear(p, sig), sig + 1, k);
    } else {
      ScanDone(Clear(p, sig), sig + 1, k);
    }
  }

  /**
    SIGKILL ends the loop in a kill unless the handler of a lower signal is entered first, with SIGKILL still
    pending.
   */
  lemma {:induction false} ScanKills(p: Proc, sig: nat)
    requires SignalOk(p) && !p.inSignal && p.pid != IDLE_PID && 1 <= sig <= SIGKILL && p.pending[SIGKILL]
    ensures var o := Scan(p, sig); o.Kill? || (o.Call? && o.sig < SIGKILL && o.p.pending[SIGKILL])
    decreases NUM_SIGS - sig
  {
    if sig < SIGKILL {
      if !p.pending[sig] {
        ScanKills(p, sig + 1);
      } else if p.handlers[sig] == SIG_IGN || (p.handlers[sig] == SIG_DFL && !Fatal(sig)) {
        ScanKills(Clear(p, sig), sig + 1);
      }
    }
  }

  /** The loop never raises a signal. */
  lemma {:induction false} ScanClears(p: Proc, sig: nat, k: nat)
    requires SignalOk(p) && !p.inSignal && p.pid != IDLE_PID && 1 <= sig <= NUM_SIGS && k < 64 && !p.pending[k]
    ensures !Scan(p, sig).p.pending[k]
    decreases NUM_SIGS - sig
  {
    if sig < NUM_SIGS {
      if !p.pending[sig] {
        ScanClears(p, sig + 1, k);
      } else if p.handlers[sig] == SIG_IGN || (p.handlers[sig] == SIG_DFL && !Fatal(sig)) {
        ScanClears(Clear(p, sig), sig + 1, k);
      }
    }
  }

  /** Signal `sig` is pending and does something: it has a handler, or is fatal by default (INT, KILL, USR1, USR2). */
  predicate Effective(p: Proc, sig: nat)
    requires |p.pending| == 64 && |p.handlers| == NUM_SIGS && sig < NUM_SIGS
  {
    p.pending[sig] && (p.handlers[sig] > 1 || (p.handlers[sig] == 0 && sig in {2, 9, 10, 12}))
  }

  /**
    What an effective signal leads to: the default kills, and so does a handler without room for 160 bytes on the
    stack; else the handler is entered with the signal number as its argument, on the stack below the saved frame.
   */
  ghost predicate ActsOn(p: Proc, o: Outcome, sig: nat)
    requires |p.handlers| == NUM_SIGS && |p.frame.gprs| == 15 && sig < NUM_SIGS
  {
    if p.handlers[sig] == 0 then o.Kill? && o.code == 128 + sig
    else if p.frame.rsp < p.stackLow + 160 then o.Kill? && o.code == 137
    else
      && o.Call? && o.sig == sig && o.p.inSignal && o.p.sigframe == p.frame.rsp - 160
      && o.p.frame == Frame(p.frame.gprs[6 := sig], p.handlers[sig], p.frame.rsp - 160, p.frame.rflags)
  }

  lemma ScanOne(p: Proc, sig: nat)
    requires SignalOk(p) && !p.inSignal && p.pid != IDLE_PID && 1 <= sig < NUM_SIGS
    ensures Effective(p, sig) ==> ActsOn(p, Scan(p, sig), sig)
    ensures !p.pending[sig] ==> Scan(p, sig) == Scan(p, sig + 1)
    ensures p.pending[sig] && !Effective(p, sig) ==>
      SignalOk(Clear(p, sig)) && Scan(p, sig) == Scan(Clear(p, sig), sig + 1)
  {
  }

  /** The loop acts on the lowest effective signal from `sig` up and on no other; without one it goes on. */
  lemma {:induction false} ScanActsOnLowest(p: Proc, sig: nat, first: nat)
    requires SignalOk(p) && !p.inSignal && p.pid != IDLE_PID && 1 <= sig <= first <= NUM_SIGS
    requires (forall k :: sig <= k < first ==> !Effective(p, k)) && (first < NUM_SIGS ==> Effective(p, first))
    ensures if first == NUM_SIGS then Scan(p, sig).Continue? else ActsOn(p, Scan(p, sig), first)
    decreases NUM_SIGS - sig
  {
    hide Scan, Effective, ActsOn;
    if sig < first {
      ScanOne(p, sig);
      var q := if p.pending[sig] then Clear(p, sig) else p;
      ClearedActs(p, sig, Scan(q, sig + 1), first);
      forall k | sig < k < first ensures !Effective(q, k) {
        assert !Effective(p, k);
      }
      ScanActsOnLowest(q, sig + 1, first);
    } else if sig < NUM_SIGS {
      ScanOne(p, sig);
    } else {
      ScanEmpty(p);
    }
  }

  lemma ScanEmpty(p: Proc)
    requires SignalOk(p) && !p.inSignal && p.pid != IDLE_PID
    ensures Scan(p, NUM_SIGS) == Continue(p)
  {
  }

  /** A signal that does nothing makes no difference to the others. */
  lemma ClearedActs(p: Proc, sig: nat, o: Outcome, first: nat)
    requires SignalOk(p) && sig < NUM_SIGS
    ensures var q := if p.pending[sig] then Clear(p, sig) else p;
      && (forall k :: sig < k < NUM_SIGS ==> Effective(q, k) == Effective(p, k))
      && (first < NUM_SIGS ==> ActsOn(q, o, first) == ActsOn(p, o, first))
  {
  }

  /** Delivery when a process is selected: nothing for the idle process, only SIGKILL while a handler runs. */
  function Deliver(p: Proc): Outcome
    requires SignalOk(p)
  {
    if p.pid == IDLE_PID || Quiet(p.pending) then Continue(p)
    else if p.inSignal then if p.pending[SIGKILL] then Kill(Clear(p, SIGKILL), 128 + SIGKILL) else Continue(p)
    else Scan(p, 1)
  }

  /** The signals from `from` up to `to` are dealt with, the others as they were. */
  ghost predicate DealtWith(before: seq<bool>, after: seq<bool>, from: nat, to: nat) {
    && |before| == |after| == 64
    && forall k :: 0 <= k < 64 ==> (after[k] <==> before[k] && !(from <= k <= to))
  }

  lemma ScanTakes(p: Proc, sig: nat)
    requires SignalOk(p) && !p.inSignal && p.pid != IDLE_PID && 1 <= sig < NUM_SIGS && Effective(p, sig)
    ensures Scan(p, sig).p.pending == p.pending[sig := false]
  {
  }

  lemma {:induction false} ScanDeals(p: Proc, sig: nat, first: nat)
    requires SignalOk(p) && !p.inSignal && p.pid != IDLE_PID && 1 <= sig <= first <= NUM_SIGS
    requires (forall k :: sig <= k < first ==> !Effective(p, k)) && (first < NUM_SIGS ==> Effective(p, first))
    ensures DealtWith(p.pending, Scan(p, sig).p.pending, sig, if first < NUM_SIGS then first else NUM_SIGS - 1)
    decreases NUM_SIGS - sig
  {
    hide Scan, Effective, ActsOn;
    if sig < first {
      ScanOne(p, sig);
      var q := if p.pending[sig] then Clear(p, sig) else p;
      ClearedActs(p, sig, Continue(p), NUM_SIGS);
      forall k | sig < k < first ensures !Effective(q, k) {
        assert !Effective(p, k);
      }
      ScanDeals(q, sig + 1, first);
    } else if sig < NUM_SIGS {
      ScanTakes(p, sig);
    } else {
      ScanEmpty(p);
    }
  }

  /**
    What selecting a process does about its signals, outside a handler: it acts on the lowest effective one, drops
    those below it and leaves those above; without one it goes on with the registers it had.
   */
  lemma DeliverActs(p: Proc, first: nat)
    requires SignalOk(p) && p.pid != IDLE_PID && !p.inSignal && 1 <= first <= 32
    requires (forall k :: 1 <= k < first ==> !Effective(p, k)) && (first < 32 ==> Effective(p, first))
    ensures if first == 32 then Deliver(p) == Continue(p.(pending := Deliver(p).p.pending))
            else ActsOn(p, Deliver(p), first)
    ensures DealtWith(p.pending, Deliver(p).p.pending, 1, if first < 32 then first else 31)
  {
    hide Scan, ActsOn, Effective, DealtWith;
    if Quiet(p.pending) {
      NothingToDo(p, first);
    } else {
      ScanActsOnLowest(p, 1, first);
      ScanDeals(p, 1, first);
    }
  }

  lemma NothingToDo(p: Proc, first: nat)
    requires SignalOk(p) && Quiet(p.pending) && 1 <= first <= 32 && (first < 32 ==> Effective(p, first))
    ensures first == 32 && DealtWith(p.pending, p.pending, 1, 31)
  {
  }

  /** So it goes on exactly when no signal from 1 to 31 is effective. */
  lemma DeliverContinues(p: Proc)
    requires SignalOk(p) && p.pid != IDLE_PID && !p.inSignal
    ensures Deliver(p).Continue? <==> forall k :: 1 <= k < 32 ==> !Effective(p, k)
  {
    hide Effective, Deliver, DealtWith;
    var first := LowestEffective(p, 1);
    DeliverActs(p, first);
  }

  lemma {:induction false} LowestEffective(p: Proc, sig: nat) returns (first: nat)
    requires SignalOk(p) && 1 <= sig <= 32
    ensures sig <= first <= 32 && (forall k :: sig <= k < first ==> !Effective(p, k))
    ensures first < 32 ==> Effective(p, first)
    decreases 32 - sig
  {
    first := sig;
    if sig < 32 && !Effective(p, sig) {
      first := LowestEffective(p, sig + 1);
    }
  }

  /** Inside a handler only SIGKILL matters; idle gets no signals. */
  lemma DeliverInHandler(p: Proc)
    requires SignalOk(p) && (p.inSignal || p.pid == IDLE_PID)
    ensures if p.inSignal && p.pending[9] then Deliver(p).Kill? && Deliver(p).code == 137 else Deliver(p) == Continue(p)
  {
    assert p.pending[9] ==> !Quiet(p.pending);
  }

  /** What delivery leaves alone. */
  lemma DeliverKeeps(p: Proc)
    requires SignalOk(p)
    ensures var o := Deliver(p);
      && o.p.pid == p.pid && o.p.parent == p.parent && o.p.state == p.state && o.p.pml4 == p.pml4
      && o.p.kstackTop == p.kstackTop
      && o.p.waitFor == p.waitFor && o.p.inWait == p.inWait && o.p.handlers == p.handlers
      && (p.pid == IDLE_PID ==> o == Continue(p))
  {
  }

  /** The process as it runs on after being selected. */
  function Resumed(p: Proc): Proc {
    p.(state := Running)
  }

  /** Delivery that does not kill keeps the signal invariant. */
  lemma DeliveredOk(p: Proc)
    requires SignalOk(p) && !Deliver(p).Kill?
    ensures SignalOk(Deliver(p).p)
  {
    hide Scan;
    if p.pid != IDLE_PID && !Quiet(p.pending) && !p.inSignal {
      ScanOk(p);
      if !p.pending[SIGKILL] {
        ScanClears(p, 1, SIGKILL);
      }
    }
  }

  /** A process that is not killed when selected keeps its signal invariant. */
  lemma ResumedOk(p: Proc)
    requires SignalOk(p) && !Deliver(p).Kill? && p.state != Zombie
    ensures SignalOk(Resumed(Deliver(p).p))
  {
    hide Scan;
    if p.pid != IDLE_PID && !Quiet(p.pending) && !p.inSignal {
      ScanOk(p);
      if !p.pending[SIGKILL] {
        ScanClears(p, 1, SIGKILL);
      }
    }
  }

  lemma ScanOk(p: Proc)
    requires SignalOk(p) && !p.inSignal && p.pid != IDLE_PID
    ensures var o := Scan(p, 1);
      && |o.p.pending| == 64 && |o.p.handlers| == NUM_SIGS && |o.p.frame.gprs| == 15 && o.p.handlers == p.handlers
      && o.p.pid == p.pid && o.p.stackLow == p.stackLow && o.p.state == p.state
      && (o.Call? ==> o.p.inSignal && o.p.sigframe != 0) && (!o.Call? ==> !o.p.inSignal && o.p.sigframe == 0)
      && (o.Continue? ==> !o.p.pending[SIGKILL])
  {
    if Scan(p, 1).Continue? {
      ScanDone(p, 1, SIGKILL);
    }
  }

  /**
    With SIGKILL pending a selection kills, unless it enters the handler of a lower signal; inside a handler it
    always kills.
   */
  lemma KillAtSelection(p: Proc)
    requires SignalOk(p) && p.pid != IDLE_PID && p.pending[SIGKILL]
    ensures var o := Deliver(p);
      o.Kill? || (o.Call? && !p.inSignal && o.sig < SIGKILL && o.p.inSignal && o.p.pending[SIGKILL])
  {
    hide Scan;
    assert !Quiet(p.pending);
    if !p.inSignal {
      ScanKills(p, 1);
      ScanOk(p);
    }
  }

  // ----- The gate before system calls ---------------------------------------------

  /** Whether a system call is dispatched. */
  datatype Gate = Pass(p: Proc) | Terminated(p: Proc, code: nat) | Deferred(p: Proc)

  /** The loop of the gate: ignored signals are dropped, custom handlers left to the scheduler. */
  function Check(p: Proc, sig: nat, custom: bool): (g: Gate)
    requires SignalOk(p) && !p.inSignal && p.pid != IDLE_PID && 1 <= sig <= NUM_SIGS
    ensures g.p == p.(pending := g.p.pending) && |g.p.pending| == 64
    ensures !g.Terminated? && sig <= SIGKILL ==> !p.pending[SIGKILL]
    ensures forall k :: 0 <= k < 64 && !p.pending[k] ==> !g.p.pending[k]
    decreases NUM_SIGS - sig
  {
    if sig == NUM_SIGS then (if custom then Deferred(p) else Pass(p))
    else if !p.pending[sig] then Check(p, sig + 1, custom)
    else
      var h, q := p.handlers[sig], Clear(p, sig);
      if h == SIG_IGN then Check(q, sig + 1, custom)
      else if h == SIG_DFL then if Fatal(sig) then Terminated(q, 128 + sig) else Check(q, sig + 1, custom)
      else Check(p, sig + 1, true)
  }

  lemma CheckOne(p: Proc, sig: nat, custom: bool)
    requires SignalOk(p) && !p.inSignal && p.pid != IDLE_PID && 1 <= sig < NUM_SIGS
    ensures Effective(p, sig) && p.handlers[sig] == SIG_DFL ==> Check(p, sig, custom).Terminated?
    ensures Effective(p, sig) && p.handlers[sig] > SIG_IGN ==> Check(p, sig, custom) == Check(p, sig + 1, true)
    ensures !p.pending[sig] ==> Check(p, sig, custom) == Check(p, sig + 1, custom)
    ensures p.pending[sig] && !Effective(p, sig) ==>
      SignalOk(Clear(p, sig)) && Check(p, sig, custom) == Check(Clear(p, sig), sig + 1, custom)
  {
  }

  /** Some pending signal from `sig` up has a fatal default action. */
  ghost predicate SomeFatal(p: Proc, sig: nat)
    requires |p.pending| == 64 && |p.handlers| == NUM_SIGS
  {
    exists k :: sig <= k < NUM_SIGS && Effective(p, k) && p.handlers[k] == SIG_DFL
  }

  /** Some pending signal from `sig` up has a handler. */
  ghost predicate SomeCustom(p: Proc, sig: nat)
    requires |p.pending| == 64 && |p.handlers| == NUM_SIGS
  {
    exists k :: sig <= k < NUM_SIGS && Effective(p, k) && p.handlers[k] > SIG_IGN
  }

  lemma SomeStep(p: Proc, q: Proc, sig: nat)
    requires |p.pending| == |q.pending| == 64 && |p.handlers| == NUM_SIGS && q.handlers == p.handlers && sig < NUM_SIGS
    requires forall k :: sig < k < NUM_SIGS ==> q.pending[k] == p.pending[k]
    ensures SomeFatal(p, sig) <==> (Effective(p, sig) && p.handlers[sig] == SIG_DFL) || SomeFatal(q, sig + 1)
    ensures SomeCustom(p, sig) <==> (Effective(p, sig) && p.handlers[sig] > SIG_IGN) || SomeCustom(q, sig + 1)
  {
    assert forall k :: sig < k < NUM_SIGS ==> Effective(q, k) == Effective(p, k);
  }

  lemma CheckLast(p: Proc, custom: bool)
    requires SignalOk(p) && !p.inSignal && p.pid != IDLE_PID
    ensures Check(p, NUM_SIGS, custom) == (if custom then Deferred(p) else Pass(p)) && !SomeFatal(p, NUM_SIGS)
    ensures !SomeCustom(p, NUM_SIGS)
  {
  }

  /**
    The gate terminates exactly when a pending signal has a fatal default, defers exactly when there is only a
    handler to run, and else passes.
   */
  lemma {:induction false} CheckDecides(p: Proc, sig: nat, custom: bool)
    requires SignalOk(p) && !p.inSignal && p.pid != IDLE_PID && 1 <= sig <= NUM_SIGS
    ensures Check(p, sig, custom).Terminated? <==> SomeFatal(p, sig)
    ensures Check(p, sig, custom).Deferred? <==> !SomeFatal(p, sig) && (custom || SomeCustom(p, sig))
    decreases NUM_SIGS - sig
  {
    hide Check, SomeFatal, SomeCustom;
    if sig == NUM_SIGS {
      CheckLast(p, custom);
    } else {
      CheckOne(p, sig, custom);
      var q := if p.pending[sig] && !Effective(p, sig) then Clear(p, sig) else p;
      SomeStep(p, q, sig);
      if !Effective(p, sig) || p.handlers[sig] > SIG_IGN {
        CheckDecides(q, sig + 1, custom || Effective(p, sig));
      }
    }
  }

  function GateOf(p: Proc): (g: Gate)
    requires SignalOk(p)
    ensures g.p == p.(pending := g.p.pending) && |g.p.pending| == 64
    ensures forall k :: 0 <= k < 64 && !p.pending[k] ==> !g.p.pending[k]
  {
    if p.pid == IDLE_PID || Quiet(p.pending) then Pass(p)
    else if p.inSignal then if p.pending[SIGKILL] then Terminated(Clear(p, SIGKILL), 128 + SIGKILL) else Pass(p)
    else Check(p, 1, false)
  }

  /** The lowest pending signal with a fatal default ends the loop, with its own exit code. */
  lemma {:induction false} CheckCode(p: Proc, sig: nat, custom: bool, k: nat)
    requires SignalOk(p) && !p.inSignal && p.pid != IDLE_PID && 1 <= sig <= k < NUM_SIGS
    requires Effective(p, k) && p.handlers[k] == SIG_DFL
    requires forall i :: sig <= i < k ==> !(Effective(p, i) && p.handlers[i] == SIG_DFL)
    ensures Check(p, sig, custom).Terminated? && Check(p, sig, custom).code == 128 + k
    decreases NUM_SIGS - sig
  {
    if sig < k {
      CheckOne(p, sig, custom);
      var q := if p.pending[sig] && !Effective(p, sig) then Clear(p, sig) else p;
      assert forall i :: sig < i < NUM_SIGS ==> Effective(q, i) == Effective(p, i);
      hide Check, Effective;
      CheckCode(q, sig + 1, custom || Effective(p, sig), k);
    }
  }

  /** A gate that does not end the process drops the signals that do nothing and leaves the others pending. */
  lemma {:induction false} CheckLeaves(p: Proc, sig: nat, custom: bool)
    requires SignalOk(p) && !p.inSignal && p.pid != IDLE_PID && 1 <= sig <= NUM_SIGS
    requires !Check(p, sig, custom).Terminated?
    ensures forall k :: 0 <= k < 64 ==>
      (Check(p, sig, custom).p.pending[k] <==> p.pending[k] && !(sig <= k < 32 && !Effective(p, k)))
    decreases NUM_SIGS - sig
  {
    hide Check, Effective;
    if sig == NUM_SIGS {
      CheckLast(p, custom);
    } else {
      CheckOne(p, sig, custom);
      var q := if p.pending[sig] && !Effective(p, sig) then Clear(p, sig) else p;
      SameEffect(p, q, sig);
      CheckLeaves(q, sig + 1, custom || Effective(p, sig));
    }
  }

  lemma SameEffect(p: Proc, q: Proc, sig: nat)
    requires SignalOk(p) && SignalOk(q) && sig < NUM_SIGS && q.handlers == p.handlers
    requires q == p || q == Clear(p, sig)
    ensures forall k :: 0 <= k < NUM_SIGS && k != sig ==> Effective(q, k) == Effective(p, k)
    ensures Effective(p, sig) ==> p.pending[sig] && (p.handlers[sig] == SIG_DFL || p.handlers[sig] > SIG_IGN)
    ensures q == Clear(p, sig) ==> !Effective(q, sig)
  {
  }

  /**
    What the gate does with a call made outside a handler: it ends the process exactly when a pending signal has a
    fatal default, with 128 more than the lowest such signal as exit code, puts the call off exactly when there are
    only handlers to run, and else lets it pass.
   */
  lemma GateDecides(p: Proc)
    requires SignalOk(p) && !p.inSignal && p.pid != IDLE_PID
    ensures GateOf(p).Terminated? <==> SomeFatal(p, 1)
    ensures GateOf(p).Deferred? <==> !SomeFatal(p, 1) && SomeCustom(p, 1)
    ensures forall k: nat :: LowestFatal(p, k) ==> GateOf(p).Terminated? && GateOf(p).code == 128 + k
    ensures !GateOf(p).Terminated? ==> forall k :: 0 <= k < 64 ==>
      (GateOf(p).p.pending[k] <==> p.pending[k] && !(1 <= k < 32 && !Effective(p, k)))
  {
    hide Check, Effective;
    if Quiet(p.pending) {
      QuietGate(p);
    } else {
      CheckDecides(p, 1, false);
      if !Check(p, 1, false).Terminated? {
        CheckLeaves(p, 1, false);
      }
      forall k: nat | LowestFatal(p, k)
        ensures Check(p, 1, false).Terminated? && Check(p, 1, false).code == 128 + k
      {
        CheckCode(p, 1, false, k);
      }
    }
  }

  /** Signal `k` is the lowest pending one that is fatal by default. */
  ghost predicate LowestFatal(p: Proc, k: nat)
    requires |p.pending| == 64 && |p.handlers| == NUM_SIGS
  {
    && 1 <= k < 32 && Effective(p, k) && p.handlers[k] == 0
    && forall i :: 1 <= i < k ==> !(Effective(p, i) && p.handlers[i] == 0)
  }

  lemma QuietGate(p: Proc)
    requires SignalOk(p) && Quiet(p.pending)
    ensures !SomeFatal(p, 1) && !SomeCustom(p, 1) && forall k: nat :: !LowestFatal(p, k)
  {
  }

  /** Inside a handler only SIGKILL stops a call. */
  lemma GateInHandler(p: Proc)
    requires SignalOk(p) && p.inSignal
    ensures if p.pending[9] then GateOf(p).Terminated? && GateOf(p).code == 137 else GateOf(p) == Pass(p)
  {
    assert p.pending[9] ==> !Quiet(p.pending);
  }

  /** No system call of a process with SIGKILL pending is dispatched, whatever handlers it has. */
  lemma KillAtGate(p: Proc)
    requires SignalOk(p) && p.pid != IDLE_PID && p.pending[SIGKILL]
    ensures GateOf(p).Terminated?
  {
    assert !Quiet(p.pending);
  }

  // ----- Returning from a handler ---------------------------------------------------

  /** Order of the words in the assembly's buffer: registers, RIP, RSP, RFLAGS. */
  function SigreturnBuffer(w: seq<nat>): (b: seq<nat>)
    requires |w| == 20
    ensures |b| == 18
  {
    w[..15] + [w[17], w[16], w[15]]
  }

  /** The register frame the assembly pushes from that buffer. */
  function PushedFrame(b: seq<nat>): Frame
    requires |b| == 18
  {
    Frame(b[..15], b[15], b[16], b[17])
  }

  /** `sigreturn` with the 20 words now on the user stack. */
  function Sigreturn(p: Proc, w: seq<nat>): Proc
    requires |w| == 20
  {
    p.(sigframe := 0, inSignal := false, pending := ToBits(w[19], 64), frame := PushedFrame(SigreturnBuffer(w)))
  }

  /** Returning undoes delivery: registers as interrupted, one pending signal fewer. */
  lemma SigreturnUndoes(p: Proc, sig: nat, q: Proc)
    requires SignalOk(p) && sig < 64
    requires q.(frame := p.frame, sigframe := 0, inSignal := false, pending := p.pending) ==
      p.(inSignal := false, sigframe := 0)
    requires !p.inSignal
    ensures Sigreturn(q, SavedWords(Clear(p, sig), sig)) == Clear(p, sig)
  {
    var w := SavedWords(Clear(p, sig), sig);
    MaskRoundTrip(p.pending[sig := false]);
    assert w[..15] == p.frame.gprs;
    assert SigreturnBuffer(w)[..15] == p.frame.gprs;
  }

  // ----- All handlers, one after the other ------------------------------------------

  /** User memory, by word address. */
  type Words = map<nat, nat>

  function Store(mem: Words, at: nat, w: seq<nat>): Words
    decreases |w|
  {
    if w == [] then mem else Store(mem[at := w[0]], at + 8, w[1..])
  }

  function Load(mem: Words, at: nat, n: nat): (w: seq<nat>)
    ensures |w| == n
  {
    seq(n, i requires 0 <= i < n => if at + 8 * i in mem then mem[at + 8 * i] else 0)
  }

  lemma {:induction false} StoreElsewhere(mem: Words, at: nat, w: seq<nat>, x: nat)
    requires x < at
    ensures x in Store(mem, at, w) <==> x in mem
    ensures x in mem ==> Store(mem, at, w)[x] == mem[x]
    decreases |w|
  {
    if w != [] {
      StoreElsewhere(mem[at := w[0]], at + 8, w[1..], x);
    }
  }

  lemma {:induction false} StoreAt(mem: Words, at: nat, w: seq<nat>, i: nat)
    requires i < |w|
    ensures at + 8 * i in Store(mem, at, w) && Store(mem, at, w)[at + 8 * i] == w[i]
    decreases |w|
  {
    if i == 0 {
      StoreElsewhere(mem[at := w[0]], at + 8, w[1..], at);
    } else {
      StoreAt(mem[at := w[0]], at + 8, w[1..], i - 1);
      assert at + 8 * i == at + 8 + 8 * (i - 1);
    }
  }

  /** What was stored is read back. */
  lemma LoadStored(mem: Words, at: nat, w: seq<nat>)
    ensures Load(Store(mem, at, w), at, |w|) == w
  {
    forall i | 0 <= i < |w| ensures Load(Store(mem, at, w), at, |w|)[i] == w[i] {
      StoreAt(mem, at, w, i);
    }
  }

  /** Pending signals from `sig` up, in increasing order. */
  function PendingList(pending: seq<bool>, sig: nat): seq<nat>
    requires |pending| == 64 && sig <= NUM_SIGS
    decreases NUM_SIGS - sig
  {
    if sig == NUM_SIGS then [] else (if pending[sig] then [sig] else []) + PendingList(pending, sig + 1)
  }

  /** What the user program does from a handler's entry to its sigreturn: any registers, any memory. */
  type UserCode = (nat, Frame, Words) -> (Frame, Words)

  /** Handlers leave the frame saved at their entry stack pointer alone. */
  ghost predicate LeavesFrame(user: UserCode) {
    forall sig, f, m :: Load(user(sig, f, m).1, f.rsp, 20) == Load(m, f.rsp, 20)
  }

  /** Every pending signal has a handler and there is room on the stack. */
  predicate AllCustom(p: Proc)
    requires |p.pending| == 64 && |p.handlers| == NUM_SIGS
  {
    && (forall sig :: 0 <= sig < 64 && p.pending[sig] ==> 1 <= sig < NUM_SIGS && p.handlers[sig] > SIG_IGN)
    && StackRoom(p)
  }

  /** Deliver, run the handler, return, and again until nothing is pending. Yields the process and the handlers run. */
  function RunHandlers(p: Proc, mem: Words, user: UserCode, sig: nat): (Proc, seq<nat>)
    requires SignalOk(p) && !p.inSignal && p.pid != IDLE_PID && 1 <= sig <= NUM_SIGS
    decreases NUM_SIGS - sig
  {
    var o := Deliver(p);
    if !o.Call? || o.sig < sig then (o.p, [])
    else
      var q := Clear(p, o.sig);
      var mem1 := Store(mem, o.p.sigframe, SavedWords(q, o.sig));
      var (f, mem2) := user(o.sig, o.p.frame, mem1);
      var back := Sigreturn(o.p.(frame := f), Load(mem2, o.p.sigframe, 20));
      if !SignalOk(back) then (back, [o.sig])
      else
        var (last, log) := RunHandlers(back, mem2, user, o.sig + 1);
        (last, [o.sig] + log)
  }

  lemma {:induction false} ScanSkips(p: Proc, sig: nat)
    requires SignalOk(p) && !p.inSignal && p.pid != IDLE_PID && 1 <= sig <= NUM_SIGS
    requires forall k :: 0 <= k < sig ==> !p.pending[k]
    ensures Scan(p, 1) == Scan(p, sig)
  {
    if sig > 1 {
      ScanSkips(p, sig - 1);
    }
  }

  /** The lowest pending signal's handler is entered. */
  lemma ScanEnters(p: Proc, sig: nat)
    requires SignalOk(p) && !p.inSignal && p.pid != IDLE_PID && AllCustom(p)
    requires 1 <= sig < NUM_SIGS && p.pending[sig] && forall k :: 0 <= k < sig ==> !p.pending[k]
    ensures p.frame.rsp >= SIGFRAME_SIZE && Deliver(p) == Call(Enter(Clear(p, sig), sig, p.handlers[sig]), sig)
  {
    ScanSkips(p, sig);
    assert !Quiet(p.pending);
  }

  /** One round: the lowest pending signal's handler runs and everything else is as before. */
  lemma OneHandler(p: Proc, mem: Words, user: UserCode, sig: nat)
    requires SignalOk(p) && !p.inSignal && p.pid != IDLE_PID && AllCustom(p) && LeavesFrame(user)
    requires 1 <= sig < NUM_SIGS && p.pending[sig] && forall k :: 0 <= k < sig ==> !p.pending[k]
    ensures var q := Clear(p, sig);
      var o := Call(Enter(q, sig, p.handlers[sig]), sig);
      && Deliver(p) == o && SignalOk(q) && AllCustom(q)
      && var mem1 := Store(mem, o.p.sigframe, SavedWords(q, sig));
         q == Sigreturn(o.p.(frame := user(sig, o.p.frame, mem1).0),
                        Load(user(sig, o.p.frame, mem1).1, o.p.sigframe, 20))
  {
    hide Scan, Deliver, Store, Load, SavedWords, Sigreturn;
    ScanEnters(p, sig);
    var q := Clear(p, sig);
    var e := Enter(q, sig, p.handlers[sig]);
    var w := SavedWords(q, sig);
    var mem1 := Store(mem, e.sigframe, w);
    LoadStored(mem, e.sigframe, w);
    var after := user(sig, e.frame, mem1);
    assert Load(after.1, e.frame.rsp, 20) == Load(mem1, e.frame.rsp, 20);
    SigreturnUndoes(p, sig, e.(frame := after.0));
  }

  /**
    Signal round trip: with a handler for every pending signal, room on the stack and handlers that leave
    their saved frame alone, each handler runs once, in increasing signal order, and all registers
    end as they were first interrupted.
   */
  lemma {:induction false} RoundTrip(p: Proc, mem: Words, user: UserCode, sig: nat)
    requires SignalOk(p) && !p.inSignal && p.pid != IDLE_PID && AllCustom(p) && LeavesFrame(user)
    requires 1 <= sig <= NUM_SIGS && forall k :: 0 <= k < sig ==> !p.pending[k]
    ensures var (last, log) := RunHandlers(p, mem, user, sig);
      && last.frame == p.frame && Quiet(last.pending) && !last.inSignal && last.handlers == p.handlers
      && last.pid == p.pid
      && log == PendingList(p.pending, sig)
    decreases NUM_SIGS - sig
  {
    hide RunHandlers, Deliver, AllCustom, LeavesFrame, SavedWords, Store;
    RoomBelow(p);
    if sig == NUM_SIGS {
      NoneLeft(p, mem, user);
    } else if !p.pending[sig] {
      RoundTrip(p, mem, user, sig + 1);
      RunSkips(p, mem, user, sig);
    } else {
      OneHandler(p, mem, user, sig);
      RunFirst(p, mem, user, sig);
      var q := Clear(p, sig);
      var e := Enter(q, sig, p.handlers[sig]);
      RoundTrip(q, user(sig, e.frame, Store(mem, e.sigframe, SavedWords(q, sig))).1, user, sig + 1);
      SameTail(p.pending, q.pending, sig + 1);
    }
  }

  lemma RoomBelow(p: Proc)
    requires SignalOk(p) && p.pid != IDLE_PID && AllCustom(p)
    ensures p.frame.rsp >= SIGFRAME_SIZE
  {
  }

  /** With nothing pending nothing runs. */
  lemma NoneLeft(p: Proc, mem: Words, user: UserCode)
    requires SignalOk(p) && !p.inSignal && p.pid != IDLE_PID && AllCustom(p)
    requires forall k :: 0 <= k < NUM_SIGS ==> !p.pending[k]
    ensures RunHandlers(p, mem, user, NUM_SIGS) == (p, []) && Quiet(p.pending)
  {
    ScanSkips(p, NUM_SIGS);
  }

  lemma RunSkips(p: Proc, mem: Words, user: UserCode, sig: nat)
    requires SignalOk(p) && !p.inSignal && p.pid != IDLE_PID && 1 <= sig < NUM_SIGS
    requires forall k :: 0 <= k <= sig ==> !p.pending[k]
    ensures RunHandlers(p, mem, user, sig) == RunHandlers(p, mem, user, sig + 1)
  {
    ScanSkips(p, sig + 1);
  }

  /** One unfolding of the run. */
  lemma RunFirst(p: Proc, mem: Words, user: UserCode, sig: nat)
    requires SignalOk(p) && !p.inSignal && p.pid != IDLE_PID && 1 <= sig < NUM_SIGS && p.frame.rsp >= SIGFRAME_SIZE
    requires Deliver(p) == Call(Enter(Clear(p, sig), sig, p.handlers[sig]), sig) && SignalOk(Clear(p, sig))
    requires var e := Enter(Clear(p, sig), sig, p.handlers[sig]);
      var after := user(sig, e.frame, Store(mem, e.sigframe, SavedWords(Clear(p, sig), sig)));
      Sigreturn(e.(frame := after.0), Load(after.1, e.sigframe, 20)) == Clear(p, sig)
    ensures var q := Clear(p, sig);
      var e := Enter(q, sig, p.handlers[sig]);
      var after := user(sig, e.frame, Store(mem, e.sigframe, SavedWords(q, sig)));
      RunHandlers(p, mem, user, sig) ==
        (RunHandlers(q, after.1, user, sig + 1).0, [sig] + RunHandlers(q, after.1, user, sig + 1).1)
  {
    hide Deliver, Enter, Sigreturn, Load, Store, SavedWords;
  }

  lemma {:induction false} SameTail(a: seq<bool>, b: seq<bool>, sig: nat)
    requires |a| == |b| == 64 && sig <= NUM_SIGS && forall k :: sig <= k < NUM_SIGS ==> a[k] == b[k]
    ensures PendingList(a, sig) == PendingList(b, sig)
    decreases NUM_SIGS - sig
  {
    if sig < NUM_SIGS {
      SameTail(a, b, sig + 1);
    }
  }
}
