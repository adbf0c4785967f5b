/**
  The scheduler (process.rs) and the system calls that change process state (process.rs, signal.rs,
  syscall.rs). CR3, RSP0 and the system-call stack are plain variables; a step takes the registers the
  user program has when it traps as a parameter.
 */
module Scheduler {
  import opened Prelude
  import opened Signals
  import opened ProcessTable
  import opened Registers

  /** Slot reached from `start` after `d` steps round the table. */
  function Around(start: nat, d: nat): nat {
    (start + d) % MAX_PROCS
  }

  /** Slot `i` holds a ready process other than idle. */
  predicate Runnable(slots: Slots, i: nat) {
    i < |slots| && slots[i].Some? && slots[i].value.state == Ready && slots[i].value.pid != IDLE_PID
  }

  /** Slot `n` is what the scheduler must select from cursor `start`: the next runnable slot, or idle. */
  ghost predicate Selected(slots: Slots, start: nat, n: nat) {
    || (exists d ::
          && 1 <= d < MAX_PROCS && n == Around(start, d) && Runnable(slots, n)
          && forall e :: 1 <= e < d ==> !Runnable(slots, Around(start, e)))
    || (n == IDLE_SLOT && forall e :: 1 <= e < MAX_PROCS ==> !Runnable(slots, Around(start, e)))
  }

  /** Selections follow the rule, each starting where the one before ended. */
  ghost predicate TraceOk(trace: seq<Pick>) {
    && (forall t :: 0 <= t < |trace| ==>
          Selected(trace[t].slots, trace[t].from, trace[t].to) && trace[t].from < MAX_PROCS && trace[t].to < MAX_PROCS)
    && (forall t :: 0 < t < |trace| ==> trace[t].from == trace[t - 1].to)
  }

  /** This selection picks process `pid` with SIGKILL pending. */
  predicate KillPick(x: Pick, pid: nat) {
    pid != IDLE_PID && At(x.slots, x.to, pid) && Pends(x.slots[x.to].value, SIGKILL)
  }

  /** How often process `pid` was selected with SIGKILL pending. */
  function Kills(trace: seq<Pick>, pid: nat): nat {
    if trace == [] then 0 else Kills(trace[..|trace| - 1], pid) + (if KillPick(trace[|trace| - 1], pid) then 1 else 0)
  }

  /**
    No process was selected more than twice with SIGKILL pending, and a live one only once, to be inside a
    handler since.
   */
  ghost predicate KillOk(trace: seq<Pick>, slots: Slots, nextPid: nat) {
    && (forall pid: nat :: Kills(trace, pid) <= 2 && (pid >= nextPid ==> Kills(trace, pid) == 0))
    && (forall i :: 0 <= i < |slots| && slots[i].Some? && slots[i].value.state != Zombie ==>
          Kills(trace, slots[i].value.pid) <= if Spared(slots[i].value) then 1 else 0)
  }

  /** What the selections made so far say about the processes in the table. */
  ghost predicate History(trace: seq<Pick>, slots: Slots, nextPid: nat) {
    KillOk(trace, slots, nextPid) && FrameOk(trace, slots, nextPid)
  }

  /** No process is marked as running, so idle is ready. */
  ghost predicate NoneRunning(slots: Slots) {
    forall i :: 0 <= i < |slots| && slots[i].Some? ==> slots[i].value.state != Running
  }

  /** The registers a system call leaves when it goes through the scheduler: its result, then zeros. */
  function SyscallFrame(result: nat, rip: nat, rsp: nat): (f: Frame)
    ensures |f.gprs| == 15 && f.gprs[0] == result && (forall i :: 1 <= i < 15 ==> f.gprs[i] == 0)
    ensures f.rip == rip && f.rsp == rsp && f.rflags == 0x202
  {
    Frame([result] + seq(14, _ => 0), rip, rsp, 0x202)
  }

  function SaturatingSub(n: nat): nat {
    if n == 0 then 0 else n - 1
  }

  /** User memory of one address space. */
  function Space(mem: map<nat, Words>, pml4: nat): Words {
    if pml4 in mem then mem[pml4] else map[]
  }

  class Kernel {
    var mem: map<nat, Words>
    var slots: Slots
    var nextPid: nat
    var count: nat
    var current: nat
    var cr3: nat
    var rsp0: nat
    var kstack: nat
    var shouldSchedule: bool
    // Where the current system call returns to.
    var rip: nat
    var rsp: nat
    // Process numbers returned by waitpid, in order.
    var reaped: seq<nat>
    // Every selection made so far.
    ghost var trace: seq<Pick>

    /** The table is sound; its counters and the reaping record agree with it. */
    ghost predicate TableValid()
      reads this
    {
      TableOk(slots, nextPid) && count == Occupied(slots) && ReapedOk(slots, nextPid, reaped) && TraceOk(trace)
    }

    /** Slot `c` holds the current process and is where the last selection ended. */
    ghost predicate Cursor(c: nat)
      reads this
    {
      At(slots, c, current) && (trace != [] ==> trace[|trace| - 1].to == c)
    }

    /** Slot `c` holds the current process, whose address space and stacks are loaded. */
    ghost predicate Loaded(c: nat)
      reads this
    {
      Cursor(c) && cr3 == slots[c].value.pml4 && rsp0 == slots[c].value.kstackTop && kstack == slots[c].value.kstackTop
    }

    /** Inside the kernel on behalf of the process in slot `c`: no other process is marked as running. */
    ghost predicate InKernel(c: nat)
      reads this
    {
      && TableValid() && Loaded(c)
      && forall i :: 0 <= i < |slots| && i != c && slots[i].Some? ==> slots[i].value.state != Running
    }

    /**
      User or idle code runs: exactly one process is Running, it is the current one and the machine is set up
      for it.
     */
    ghost predicate Valid()
      reads this
    {
      History(trace, slots, nextPid) && exists c: nat :: InKernel(c) && slots[c].value.state == Running
    }

    /** Slot of a process in the table. */
    method Lookup(pid: nat) returns (i: Option<nat>)
      ensures i.Some? ==> At(slots, i.value, pid)
      ensures i.None? ==> !Present(slots, pid)
    {
      var k := 0;
      while k < |slots|
        invariant 0 <= k <= |slots| && forall j :: 0 <= j < k ==> !At(slots, j, pid)
      {
        if slots[k].Some? && slots[k].value.pid == pid {
          return Some(k);
        }
        k := k + 1;
      }
      return None;
    }

    /** Replace the process in slot `i` by a later state of itself. */
    method Update(i: nat, q: Proc)
      requires TableValid() && Replaces(slots, nextPid, i, q)
      modifies this`slots
      ensures TableValid() && slots == old(slots)[i := Some(q)]
      ensures forall pid: nat :: Present(slots, pid) == old(Present(slots, pid))
    {
      hide TableOk, ReapedOk, Replaces, Occupied, ProcOk, TraceOk;
      InRange(slots, nextPid, i, q);
      ReplaceOk(slots, nextPid, i, q);
      ReplaceCounts(slots, nextPid, reaped, i, q);
      slots := slots[i := Some(q)];
    }

    /** The next runnable process after the current slot, in slot order; idle when there is none. */
    method SchedNext(ghost start: nat) returns (pid: nat, n: nat)
      requires TableValid() && At(slots, start, current) && NoneRunning(slots)
      ensures At(slots, n, pid) && Selected(slots, start, n) && slots[n].value.state == Ready
    {
      var s := Lookup(current);
      TableFacts(slots, nextPid, start);
      PidSlot(slots, nextPid, s, start, current);
      var d := 1;
      while d < MAX_PROCS
        invariant 1 <= d <= MAX_PROCS && forall e :: 1 <= e < d ==> !Runnable(slots, Around(start, e))
      {
        var idx := Around(s.value, d);
        if Runnable(slots, idx) {
          return slots[idx].value.pid, idx;
        }
        d := d + 1;
      }
      return IDLE_PID, IDLE_SLOT;
    }

    /** `mark_zombie`: the process in slot `i` becomes the zombie `q` and a parent waiting for it is made ready. */
    method MarkZombie(i: nat, q: Proc) returns (ghost w: Option<nat>)
      requires TableValid() && Dies(slots, nextPid, i, q)
      modifies this`slots
      ensures ParentAt(old(slots), i, w)
      ensures (w.Some? ==> w.value < |old(slots)| && old(slots)[w.value].Some? && w.value != i)
      ensures TableValid() && slots == Zombified(old(slots), i, q, w)
      ensures Alive(slots) == Alive(old(slots)) - (if old(slots)[i].value.state != Zombie then 1 else 0)
    {
      hide TableOk, ReapedOk, ProcOk, Occupied, Alive, TraceOk;
      ghost var before := slots;
      var parent := Lookup(slots[i].value.parent);
      w := parent;
      ZombieOk(before, nextPid, reaped, i, q, w);
      slots := slots[i := Some(q)];
      if parent.None? {
        return;
      }
      var p := slots[parent.value].value;
      if p.state == Blocked && p.waitFor == q.pid {
        slots := slots[parent.value := Some(Awoken(p))];
      } else {
        assert slots[parent.value := Some(p)] == slots;
      }
    }

    /** A signal, or exit, ends the process in slot `n`, whose remaining signal state is `p`. */
    method Terminate(n: nat, p: Proc, code: nat)
      requires TableValid() && n < |slots| && slots[n].Some? && slots[n].value.state != Zombie
      requires SameImage(slots[n].value, p) && p.pid != IDLE_PID && SignalOk(p.(state := Zombie, exitCode := code))
      modifies this`slots
      ensures TableValid() && Alive(slots) < Alive(old(slots)) && KilledIn(old(slots), slots, n)
      ensures n < |slots| && slots[n] == Some(p.(state := Zombie, exitCode := code))
    {
      hide TableOk, ReapedOk, Occupied, Alive, SignalOk, TraceOk;
      var q := p.(state := Zombie, exitCode := code);
      DeathOk(slots, nextPid, n, q);
      ghost var w := MarkZombie(n, q);
      KilledEffect(old(slots), slots, n, q, w);
    }

    /** Deliver pending signals to the ready process in slot `n`: the loop over signal numbers. */
    method DeliverPending(n: nat) returns (killed: bool)
      requires TableValid() && n < |slots| && slots[n].Some? && SignalOk(slots[n].value)
      requires slots[n].value.state == Ready
      modifies this`slots, this`mem
      ensures TableValid() && killed == Deliver(old(slots)[n].value).Kill?
      ensures !killed ==> slots == old(slots)[n := Some(Deliver(old(slots)[n].value).p)]
      ensures mem == WithSavedFrame(old(mem), old(slots)[n].value)
      ensures killed ==> Alive(slots) < Alive(old(slots)) && KilledIn(old(slots), slots, n)
      ensures killed ==> var o := Deliver(old(slots)[n].value);
        n < |slots| && slots[n] == Some(o.p.(state := Zombie, exitCode := o.code))
    {
      hide TableOk, ReapedOk, Occupied, Alive, Scan, KilledIn, TraceOk;
      var p := slots[n].value;
      ghost var p0 := p;
      killed := false;
      if p.pid == IDLE_PID || Quiet(p.pending) {
        assert slots[n := Some(p)] == slots;
        return;
      }
      if p.inSignal {
        if p.pending[SIGKILL] {
          killed := true;
          Terminate(n, Clear(p, SIGKILL), 128 + SIGKILL);
        } else {
          assert slots[n := Some(p)] == slots;
        }
        return;
      }
      var sig := 1;
      while sig < NUM_SIGS
        invariant 1 <= sig <= NUM_SIGS && SignalOk(p) && !p.inSignal && p.(pending := p0.pending) == p0
        invariant Scan(p, sig) == Scan(p0, 1)
        invariant slots == old(slots) && mem == old(mem) && TableValid() && !killed
      {
        ScanStep(p, sig);
        if p.pending[sig] {
          var h := p.handlers[sig];
          if h == SIG_IGN {
            p := Clear(p, sig);
          } else if h == SIG_DFL {
            if Fatal(sig) {
              killed := true;
              Terminate(n, Clear(p, sig), 128 + sig);
              return;
            }
            p := Clear(p, sig);
          } else {
            p := Clear(p, sig);
            if !StackRoom(p) {
              killed := true;
              Terminate(n, p, 128 + SIGKILL);
              return;
            }
            var q := Enter(p, sig, h);
            mem := mem[p.pml4 := Store(Space(mem, p.pml4), q.sigframe, SavedWords(p, sig))];
            DeliveredOk(p0);
            StayReady(slots, nextPid, n, q);
            Update(n, q);
            return;
          }
        }
        sig := sig + 1;
      }
      ScanEnd(p);
      StayReady(slots, nextPid, n, p);
      Update(n, p);
    }

    /** Deliver the signals of the ready process in slot `n`; it runs on unless they kill it. */
    method RunOrDie(n: nat, ghost c: nat) returns (killed: bool)
      requires TableValid() && NoneRunning(slots) && n < |slots| && slots[n].Some? && slots[n].value.state == Ready
      modifies this`slots, this`mem
      ensures TableValid() && Evolves(old(slots), nextPid, slots, nextPid) && At(slots, n, old(slots)[n].value.pid)
      ensures WentOn(Pick(old(slots), c, n, slots)) && OthersWait(old(slots), slots, nextPid, n)
      ensures killed ==> NoneRunning(slots) && Alive(slots) < Alive(old(slots)) && Stirred(old(slots), slots)
      ensures !killed ==>
        && RunFrom(old(slots), slots, n) && slots[n].value.state == Running
        && slots[n].value.pml4 == old(slots)[n].value.pml4 && slots[n].value.kstackTop == old(slots)[n].value.kstackTop
        && forall i :: 0 <= i < |slots| && i != n && slots[i].Some? ==> slots[i].value.state != Running
    {
      hide TableOk, ReapedOk, Occupied, Alive, Scan, KilledIn, Deliver, Evolves, TraceOk, SignalOk, OthersWait, WentOn,
           Stirred;
      ghost var before := slots;
      ReadyOk(slots, nextPid, n);
      killed := DeliverPending(n);
      if killed {
        KilledKeeps(before, slots, n, nextPid);
        KilledWait(before, slots, nextPid, n);
      } else {
        RunOn(before, slots, nextPid, n);
        Update(n, Resumed(slots[n].value));
        RunsOn(before, slots, nextPid, n);
        OneWaits(before, nextPid, n, slots[n].value);
      }
      Went(Pick(before, c, n, slots));
    }

    /** Select a process, load its address space and stacks, and let it run on, unless its signals kill it. */
    method SelectOnce(ghost c: nat) returns (killed: bool, ghost k: nat)
      requires TableValid() && Cursor(c) && NoneRunning(slots) && History(trace, slots, nextPid)
      modifies this`slots, this`mem, this`current, this`cr3, this`rsp0, this`kstack, this`trace
      ensures Evolves(old(slots), nextPid, slots, nextPid) && trace == old(trace) + [Pick(old(slots), c, k, slots)]
      ensures History(trace, slots, nextPid)
      ensures killed ==>
        && TableValid() && Cursor(k) && NoneRunning(slots) && Alive(slots) < Alive(old(slots))
        && Stirred(old(slots), slots)
      ensures !killed ==> InKernel(k) && slots[k].value.state == Running && RunFrom(old(slots), slots, k)
    {
      hide TableOk, ReapedOk, Occupied, Alive, Selected, Evolves, TraceOk, History, OthersWait, WentOn, RunFrom,
           Stirred;
      ghost var before := slots;
      var pid, n := SchedNext(c);
      k := n;
      current := pid;
      rsp0 := slots[n].value.kstackTop;
      kstack := slots[n].value.kstackTop;
      cr3 := slots[n].value.pml4;
      killed := RunOrDie(n, c);
      ghost var x := Pick(before, c, n, slots);
      Picked(trace, before, nextPid, x);
      HistoryPicked(trace, before, nextPid, x);
      trace := trace + [x];
    }

    /**
      The selection loop shared by the timer tick and the system-call exit. It ends: each round that
      does not return makes one more process a zombie. The selected process is always ready, so the
      branch that halts the machine is never taken.
     */
    method Reselect(ghost c0: nat)
      requires TableValid() && Cursor(c0) && NoneRunning(slots) && History(trace, slots, nextPid)
      modifies this`slots, this`mem, this`current, this`cr3, this`rsp0, this`kstack, this`trace
      ensures Valid() && Evolves(old(slots), nextPid, slots, nextPid) && old(trace) <= trace
      ensures |old(trace)| < |trace| && Switched(old(slots), slots, trace[|trace| - 1].to)
      ensures trace[|old(trace)|].slots == old(slots) && trace[|trace| - 1].after == slots
    {
      hide TableOk, ReapedOk, Occupied, Alive, Evolves, TraceOk, Stirred, Switched, RunFrom, History;
      ghost var c, start := c0, slots;
      EvolvesRefl(slots, nextPid);
      StirredRefl(slots);
      while true
        invariant TableOk(start, nextPid) && start == old(slots) && TableValid() && Cursor(c) && NoneRunning(slots)
        invariant Evolves(start, nextPid, slots, nextPid) && old(trace) <= trace && Stirred(start, slots)
        invariant if |trace| == |old(trace)| then slots == start else trace[|old(trace)|].slots == start
        invariant History(trace, slots, nextPid)
        decreases Alive(slots)
      {
        ghost var before := slots;
        var killed;
        killed, c := SelectOnce(c);
        Chain(start, nextPid, before, nextPid, slots, nextPid);
        if !killed {
          assert InKernel(c);
          StirredThenRun(start, before, slots, c);
          return;
        }
        StirredTrans(start, before, slots);
      }
    }

    /** The timer interrupt, with the registers of the interrupted program. */
    method SchedulerTick(regs: Frame) returns (ghost c: nat)
      requires Valid() && |regs.gprs| == 15
      modifies this`slots, this`mem, this`current, this`cr3, this`rsp0, this`kstack, this`trace
      ensures Valid() && Evolves(old(slots), nextPid, slots, nextPid)
      ensures trace != [] && SwitchedFrom(old(slots), old(current), c, regs, slots, trace[|trace| - 1].to)
      ensures LeftWith(old(trace), trace, c, old(current), regs, slots) && old(slots)[c].value.state == Running
    {
      hide TableOk, ReapedOk, Occupied, Evolves, ProcOk, TraceOk, Switched, History, LeftWith;
      c :| InKernel(c) && slots[c].value.state == Running;
      SaveAndSwitch(regs, c);
      assert SwitchedFrom(old(slots), old(current), c, regs, slots, trace[|trace| - 1].to);
    }

    /** Save the current registers, give up the processor if still running, and select. */
    method SaveAndSwitch(regs: Frame, ghost c: nat)
      requires InKernel(c) && |regs.gprs| == 15 && History(trace, slots, nextPid)
      modifies this`slots, this`mem, this`current, this`cr3, this`rsp0, this`kstack, this`trace
      ensures Valid() && Evolves(old(slots), nextPid, slots, nextPid)
      ensures trace != [] && SwitchedFrom(old(slots), old(current), c, regs, slots, trace[|trace| - 1].to)
      ensures LeftWith(old(trace), trace, c, old(current), regs, slots)
    {
      hide TableOk, ReapedOk, Occupied, Evolves, ProcOk, TraceOk, Switched, History;
      ghost var before := slots;
      var s := Lookup(current);
      PidSlot(slots, nextPid, s, c, current);
      var p := slots[s.value].value;
      var q := Saved(p, regs);
      SaveOk(slots, nextPid, c, q);
      Update(s.value, q);
      ghost var saved := slots;
      OneWaits(before, nextPid, c, q);
      HistoryKept(trace, before, nextPid, saved, nextPid, c);
      Reselect(c);
      Chain(before, nextPid, saved, nextPid, slots, nextPid);
    }

    // ----- System calls -----------------------------------------------------------------

    /** The process in slot `c` is making a system call. */
    ghost predicate Calling(c: nat)
      reads this
    {
      InKernel(c) && slots[c].value.state == Running && current != IDLE_PID
    }

    /** A system call has done its work: it still runs, or the scheduler has been asked for. */
    ghost predicate Served(c: nat)
      reads this
    {
      InKernel(c) && (slots[c].value.state != Running ==> shouldSchedule)
    }

    /** The gate before dispatch: the loop over pending signals. */
    method CheckSignals(c: nat) returns (pass: bool)
      requires Calling(c)
      modifies this`slots, this`shouldSchedule
      ensures Served(c) && Evolves(old(slots), nextPid, slots, nextPid)
      ensures SignalOk(old(slots)[c].value) && Gated(old(slots), slots, c, GateOf(old(slots)[c].value))
      ensures pass == GateOf(old(slots)[c].value).Pass?
      ensures pass ==> Calling(c) && !slots[c].value.pending[SIGKILL] && shouldSchedule == old(shouldSchedule)
      ensures pass ==> |slots| == |old(slots)| && forall i :: 0 <= i < |slots| && i != c ==> slots[i] == old(slots)[i]
      ensures !pass ==> shouldSchedule
      ensures old(slots)[c].value.pending[SIGKILL] ==> !pass && slots[c].value.state == Zombie
    {
      hide TableOk, ReapedOk, Occupied, Evolves, Check, Alive, TraceOk;
      var p := slots[c].value;
      ReadyOk(slots, nextPid, c);
      assert slots[c := Some(p)] == slots;
      if Quiet(p.pending) {
        EvolvesRefl(slots, nextPid);
        return true;
      }
      if p.inSignal {
        if p.pending[SIGKILL] {
          End(c, Clear(p, SIGKILL), 128 + SIGKILL);
          return false;
        }
        EvolvesRefl(slots, nextPid);
        return true;
      }
      var g := GateLoop(p);
      if g.Terminated? {
        TerminatedOk(p);
        End(c, g.p, g.code);
        return false;
      }
      PassedOk(p);
      SetRunning(slots, nextPid, c, g.p);
      OneKeeps(slots, nextPid, c, g.p);
      Update(c, g.p);
      if g.Deferred? {
        shouldSchedule := true;
      }
      pass := g.Pass?;
    }

    /** The calling process ends and the scheduler is asked for. */
    method End(c: nat, p: Proc, code: nat)
      requires Calling(c) && SameImage(slots[c].value, p) && SignalOk(p.(state := Zombie, exitCode := code))
      modifies this`slots, this`shouldSchedule
      ensures Served(c) && shouldSchedule && slots[c] == Some(p.(state := Zombie, exitCode := code))
      ensures Evolves(old(slots), nextPid, slots, nextPid)
      ensures KilledIn(old(slots), slots, c)
    {
      hide TableOk, ReapedOk, Occupied, Evolves, Alive, SignalOk, KilledIn, TraceOk;
      ghost var before := slots;
      Terminate(c, p, code);
      EndKeeps(before, slots, c, nextPid);
      shouldSchedule := true;
    }

    method SysExit(c: nat, code: nat)
      requires Calling(c)
      modifies this`slots, this`shouldSchedule
      ensures Served(c) && shouldSchedule && Evolves(old(slots), nextPid, slots, nextPid)
      ensures Exited(old(slots), slots, c, code)
    {
      hide TableOk, ReapedOk, Occupied, Evolves, TraceOk, KilledIn;
      ReadyOk(slots, nextPid, c);
      End(c, slots[c].value, code);
    }

    /** The table part of fork, for a child with its own address space and stacks; None when those could not be had. */
    method SysFork(c: nat, child: Option<(nat, nat, Frame)>) returns (r: int)
      requires Calling(c) && (child.Some? ==> |child.value.2.gprs| == 15)
      modifies this`slots, this`nextPid, this`count
      ensures Calling(c) && Evolves(old(slots), old(nextPid), slots, nextPid)
      ensures ForkedTo(old(slots), old(nextPid), slots, c, child, r)
      ensures !old(Present(slots, nextPid)) && nextPid == old(nextPid) + if child.Some? then 1 else 0
    {
      hide TableOk, ReapedOk, Occupied, Evolves, TraceOk;
      NotYet(slots, nextPid);
      if child.None? {
        EvolvesRefl(slots, nextPid);
        return -12;
      }
      var pid := nextPid;
      var k := 0;
      TableLength(slots, nextPid);
      while k < |slots| && slots[k].Some?
        invariant 0 <= k <= |slots| && slots == old(slots) && nextPid == old(nextPid) && Calling(c)
        invariant forall j :: 0 <= j < k ==> slots[j].Some?
      {
        k := k + 1;
      }
      TableFacts(slots, nextPid, c);
      if k == |slots| {
        OneMorePid(slots, nextPid, reaped);
        nextPid := nextPid + 1;
        return -1;
      }
      var q := Child(slots[c].value, pid, child.value.0, child.value.1, child.value.2);
      Forked(slots, nextPid, reaped, c, k, q);
      slots := slots[k := Some(q)];
      nextPid := nextPid + 1;
      count := count + 1;
      assert ChildIn(old(slots), slots, c, k, pid, child.value);
      return pid;
    }

    /** The process part of exec: None when no image could be built, else its root and lowest stack address. */
    method SysExec(c: nat, image: Option<Program>) returns (r: int)
      requires Calling(c) && !slots[c].value.pending[SIGKILL]
      requires image.Some? ==> 0 < image.value.stackLow < U64 - SIGFRAME_SIZE
      modifies this`slots, this`cr3, this`rip, this`rsp
      ensures Calling(c) && Evolves(old(slots), nextPid, slots, nextPid)
      ensures Execed(old(slots), slots, c, image, r)
      ensures if image.Some? then rip == image.value.entry && rsp == image.value.rsp
        else rip == old(rip) && rsp == old(rsp)
    {
      hide TableOk, ReapedOk, Occupied, Evolves, TraceOk;
      ReadyOk(slots, nextPid, c);
      if image.None? {
        EvolvesRefl(slots, nextPid);
        return -22;
      }
      var q := NewProgram(slots[c].value, image.value);
      SetRunning(slots, nextPid, c, q);
      OneKeeps(slots, nextPid, c, q);
      Update(c, q);
      cr3, rip, rsp := image.value.root, image.value.entry, image.value.rsp;
      return 0;
    }

    /** First child of the caller, in slot order, that matches the request. */
    method FindChild(c: nat, requested: int) returns (j: Option<nat>)
      requires Calling(c)
      ensures j.Some? ==> j.value < |slots| && slots[j.value].Some? && slots[j.value].value.parent == current
      ensures j.Some? ==>
        && Matches(slots[j.value].value, current, requested)
        && forall k :: 0 <= k < j.value && slots[k].Some? ==> !Matches(slots[k].value, current, requested)
      ensures j.None? ==>
        forall k :: 0 <= k < |slots| && slots[k].Some? ==> !Matches(slots[k].value, current, requested)
    {
      var k := 0;
      while k < |slots|
        invariant 0 <= k <= |slots|
        invariant forall i :: 0 <= i < k && slots[i].Some? ==> !Matches(slots[i].value, current, requested)
      {
        if slots[k].Some? && Matches(slots[k].value, current, requested) {
          return Some(k);
        }
        k := k + 1;
      }
      return None;
    }

    /** Take a zombie out of the table and record its number. */
    method Reap(c: nat, j: nat)
      requires Calling(c) && j < |slots| && slots[j].Some? && slots[j].value.state == Zombie && j != IDLE_SLOT
      modifies this`slots, this`count, this`reaped
      ensures Calling(c) && Evolves(old(slots), nextPid, slots, nextPid)
      ensures var pid := old(slots)[j].value.pid;
        pid !in old(reaped) && reaped == old(reaped) + [pid] && !Present(slots, pid)
      ensures slots == old(slots)[j := None]
    {
      hide TableOk, ReapedOk, Occupied, Evolves, TraceOk;
      Reaped(slots, nextPid, reaped, c, j);
      reaped := reaped + [slots[j].value.pid];
      slots := slots[j := None];
      count := SaturatingSub(count);
    }

    /** Store an exit code in the caller's memory, if it gave an address. */
    method Report(status: nat, code: nat)
      modifies this`mem
      ensures Space(mem, cr3) == (if status == 0 then Space(old(mem), cr3) else Space(old(mem), cr3)[status := code])
      ensures OthersSame(old(mem), mem, cr3)
    {
      if status != 0 {
        mem := mem[cr3 := Space(mem, cr3)[status := code]];
      }
    }

    /** Reap a zombie child and report its exit code, block on a live one, or report that there is none. */
    method SysWaitpid(c: nat, requested: int, status: nat, noHang: bool) returns (r: int)
      requires Calling(c)
      modifies this`slots, this`count, this`reaped, this`shouldSchedule, this`mem
      ensures Served(c) && Evolves(old(slots), nextPid, slots, nextPid)
      ensures Waited(old(slots), slots, c, requested, status, noHang, Space(old(mem), cr3), Space(mem, cr3), r)
      ensures OthersSame(old(mem), mem, cr3)
      ensures r > 0 ==> r !in old(reaped) && reaped == old(reaped) + [r] && !Present(slots, r)
      ensures r <= 0 ==> reaped == old(reaped)
    {
      hide TableOk, ReapedOk, Occupied, Evolves, TraceOk, WaitedOn, OthersSame;
      OthersRefl(mem, cr3);
      var j := FindChild(c, requested);
      if j.None? {
        EvolvesRefl(slots, nextPid);
        return -1;
      }
      assert FirstMatch(slots, j.value, current, requested);
      var child := slots[j.value].value;
      ChildApart(slots, nextPid, c, j.value);
      if child.state == Zombie {
        Report(status, child.exitCode);
        Reap(c, j.value);
        WaitReaped(old(slots), slots, c, j.value, requested, status, noHang, Space(old(mem), cr3), Space(mem, cr3));
        return child.pid;
      }
      if noHang {
        EvolvesRefl(slots, nextPid);
        WaitBlocks(old(slots), slots, c, j.value, requested, status, noHang, Space(mem, cr3));
        return 0;
      }
      var q := slots[c].value.(waitFor := child.pid, state := Blocked, inWait := true);
      BlockOk(slots, nextPid, c, j.value, q);
      OneKeeps(slots, nextPid, c, q);
      Update(c, q);
      shouldSchedule := true;
      WaitBlocks(old(slots), slots, c, j.value, requested, status, noHang, Space(mem, cr3));
      return 0;
    }

    /** Send a signal; None when the kernel panics, looking up a number that is not in the table. */
    method SysKill(c: nat, pid: nat, sig: nat) returns (r: Option<int>)
      requires Calling(c)
      modifies this`slots
      ensures Calling(c) && Evolves(old(slots), nextPid, slots, nextPid)
      ensures Sent(old(slots), slots, pid, sig, r)
    {
      hide TableOk, ReapedOk, Occupied, Evolves, TraceOk;
      EvolvesRefl(slots, nextPid);
      if pid == 0 || sig == 0 || sig >= 32 {
        return Some(-22);
      }
      if pid == IDLE_PID {
        return Some(0);
      }
      var i := Lookup(pid);
      if i.None? {
        return None;
      }
      var p := slots[i.value].value;
      if p.state == Zombie {
        assert SentTo(old(slots), slots, i.value, pid, sig, -3);
        return Some(-3);
      }
      ReadyOk(slots, nextPid, i.value);
      var q := Raised(p, sig);
      SignalledOk(slots, nextPid, i.value, q);
      OneKeeps(slots, nextPid, i.value, q);
      Update(i.value, q);
      assert SentTo(old(slots), slots, i.value, pid, sig, 0);
      return Some(0);
    }

    /** Set a handler; SIGKILL's cannot be set. */
    method SysSigaction(c: nat, sig: nat, handler: Option<nat>) returns (r: int)
      requires Calling(c)
      modifies this`slots
      ensures Calling(c) && Evolves(old(slots), nextPid, slots, nextPid)
      ensures HandlerSet(old(slots), slots, c, sig, handler, r)
    {
      hide TableOk, ReapedOk, Occupied, Evolves, TraceOk;
      EvolvesRefl(slots, nextPid);
      if sig == 0 || sig >= 32 || sig == SIGKILL {
        return -22;
      }
      if handler.Some? {
        var p := slots[c].value;
        ReadyOk(slots, nextPid, c);
        var q := p.(handlers := p.handlers[sig := handler.value]);
        SetRunning(slots, nextPid, c, q);
        OneKeeps(slots, nextPid, c, q);
        Update(c, q);
      }
      return 0;
    }

    /**
      Return from a handler: the saved words are read from the user stack, and the pushed frame is what will be
      resumed.
     */
    method SysSigreturn(c: nat) returns (frame: Option<Frame>)
      requires Calling(c) && !slots[c].value.pending[SIGKILL]
      modifies this`slots, this`shouldSchedule
      ensures Served(c) && slots[c].value.state == Running && Evolves(old(slots), nextPid, slots, nextPid)
      ensures frame.Some? ==> shouldSchedule && |frame.value.gprs| == 15
      ensures Returned(old(slots), slots, c, Space(mem, cr3), frame)
    {
      hide TableOk, ReapedOk, Occupied, Evolves, Sigreturn, PushedFrame, SigreturnBuffer, Load, ToBits, SignalOk,
           TraceOk;
      EvolvesRefl(slots, nextPid);
      ReadyOk(slots, nextPid, c);
      var p := slots[c].value;
      if p.sigframe == 0 {
        return None;
      }
      var words := Load(Space(mem, cr3), p.sigframe, 20);
      var buffer := SigreturnBuffer(words);
      var q := p.(sigframe := 0, inSignal := false, pending := ToBits(words[19], 64));
      ReturnedOk(p, words);
      SetRunning(slots, nextPid, c, q);
      OneKeeps(slots, nextPid, c, q);
      Update(c, q);
      shouldSchedule := true;
      assert Sigreturn(p, words).(frame := p.frame) == q;
      return Some(PushedFrame(buffer));
    }

    // ----- The terminal ---------------------------------------------------------------------

    /** A completed byte wakes the recorded reader, if it is still blocked. */
    method TtyWake(pid: nat, ghost c: nat)
      requires InKernel(c) && slots[c].value.state == Running
      modifies this`slots, this`shouldSchedule
      ensures InKernel(c) && slots[c] == old(slots)[c] && Evolves(old(slots), nextPid, slots, nextPid)
      ensures slots == Feel(old(slots), Wake(pid)) && shouldSchedule == (old(shouldSchedule) || slots != old(slots))
    {
      hide TableOk, ReapedOk, Occupied, Evolves, TraceOk;
      EvolvesRefl(slots, nextPid);
      var i := Lookup(pid);
      FeelOne(slots, nextPid, i, Wake(pid));
      if i.Some? && slots[i.value].value.state == Blocked {
        ReadyOk(slots, nextPid, i.value);
        var q := slots[i.value].value.(state := Ready, inWait := false);
        StayReady(slots, nextPid, i.value, q);
        OneKeeps(slots, nextPid, i.value, q);
        Update(i.value, q);
        shouldSchedule := true;
      }
    }

    /** Ctrl-C gives a blocked reader SIGINT. */
    method TtyInterrupt(pid: nat, ghost c: nat)
      requires InKernel(c) && slots[c].value.state == Running
      modifies this`slots
      ensures InKernel(c) && slots[c] == old(slots)[c] && Evolves(old(slots), nextPid, slots, nextPid)
      ensures slots == Feel(old(slots), Interrupt(pid))
    {
      hide TableOk, ReapedOk, Occupied, Evolves, TraceOk;
      EvolvesRefl(slots, nextPid);
      var i := Lookup(pid);
      FeelOne(slots, nextPid, i, Interrupt(pid));
      if i.Some? && slots[i.value].value.state == Blocked {
        ReadyOk(slots, nextPid, i.value);
        var q := slots[i.value].value.(pending := slots[i.value].value.pending[SIGINT := true]);
        StayBlocked(slots, nextPid, i.value, q);
        OneKeeps(slots, nextPid, i.value, q);
        Update(i.value, q);
      }
    }

    /** A read with nothing to return blocks the caller. */
    method TtyBlock(c: nat)
      requires Calling(c)
      modifies this`slots, this`shouldSchedule
      ensures Served(c) && shouldSchedule && Evolves(old(slots), nextPid, slots, nextPid)
      ensures slots == old(slots)[c := Some(old(slots)[c].value.(state := Blocked, inWait := false))]
    {
      hide TableOk, ReapedOk, Occupied, Evolves, TraceOk;
      ReadyOk(slots, nextPid, c);
      var q := slots[c].value.(state := Blocked, inWait := false);
      BlockedOk(slots, nextPid, c, q);
      OneKeeps(slots, nextPid, c, q);
      Update(c, q);
      shouldSchedule := true;
    }

    // ----- Whole system calls and runs --------------------------------------------------------

    /** As `start_scheduler` leaves things: init runs in slot 0, idle is ready in slot 1. */
    constructor (init: (nat, nat), idle: (nat, nat), stackLow: nat, frame: Frame)
      requires 0 < stackLow < U64 - SIGFRAME_SIZE && |frame.gprs| == 15
      ensures Valid() && current == 1 && nextPid == 3 && count == 2 && reaped == []
      ensures |slots| == 64 && At(slots, 0, 1) && At(slots, 1, 2) && forall i :: 2 <= i < 64 ==> slots[i].None?
    {
      var none: seq<bool> := seq(64, _ => false);
      var defaults: seq<nat> := seq(NUM_SIGS, _ => SIG_DFL);
      var p1 := Proc(1, init.0, Running, init.1, 0, 0, 0, false, none, defaults, false, 0, stackLow, frame);
      var p2 := Proc(IDLE_PID, idle.0, Ready, idle.1, 0, 0, 0, false, none, defaults, false, 0, 0, frame);
      slots := [Some(p1), Some(p2)] + seq(MAX_PROCS - 2, _ => None);
      nextPid, count, current, cr3, rsp0, kstack := 3, 2, 1, init.0, init.1, init.1;
      shouldSchedule, reaped, mem, trace := false, [], map[], [];
      rip, rsp := 0, 0;
      new;
      InitialOk(slots, p1, p2);
      assert History(trace, slots, nextPid);
      assert InKernel(0);
    }

    /** Terminal input arriving: wake-ups and interrupts of recorded readers. */
    method TtyInput(effects: seq<TtyEffect>, ghost c: nat)
      requires InKernel(c) && slots[c].value.state == Running
      modifies this`slots, this`shouldSchedule
      ensures InKernel(c) && slots[c] == old(slots)[c] && Evolves(old(slots), nextPid, slots, nextPid)
      ensures slots == FeelAll(old(slots), effects)
    {
      hide TableOk, ReapedOk, Occupied, Evolves, TraceOk, Feel;
      ghost var start := slots;
      EvolvesRefl(slots, nextPid);
      var i := 0;
      while i < |effects|
        invariant 0 <= i <= |effects| && InKernel(c) && slots[c] == old(slots)[c] && slots[c].value.state == Running
        invariant start == old(slots) && TableOk(start, nextPid) && Evolves(start, nextPid, slots, nextPid)
        invariant slots == FeelAll(start, effects[..i])
      {
        ghost var before := slots;
        assert effects[..i + 1][..i] == effects[..i];
        match effects[i] {
          case Wake(pid) => TtyWake(pid, c);
          case Interrupt(pid) => TtyInterrupt(pid, c);
        }
        Chain(start, nextPid, before, nextPid, slots, nextPid);
        i := i + 1;
      }
      assert effects[..i] == effects;
    }

    /** A system call that passed the gate; None when the kernel panics. */
    method Dispatch(c: nat, call: Call) returns (result: Option<int>, frame: Option<Frame>)
      requires Calling(c) && !slots[c].value.pending[SIGKILL] && CallShape(call)
      modifies this`slots, this`nextPid, this`count, this`reaped, this`shouldSchedule, this`cr3, this`rip, this`rsp,
               this`mem
      ensures Served(c) && Evolves(old(slots), old(nextPid), slots, nextPid) && (result.None? ==> Calling(c))
      ensures frame.Some? ==> shouldSchedule && |frame.value.gprs| == 15
      ensures Did(old(slots), old(nextPid), slots, c, call, Space(old(mem), old(cr3)), Space(mem, old(cr3)), result,
                  frame)
      ensures OthersSame(old(mem), mem, old(cr3))
      ensures nextPid == old(nextPid) + if call.Fork? && call.child.Some? then 1 else 0
      ensures reaped == if call.Waitpid? && result.value > 0 then old(reaped) + [result.value] else old(reaped)
      ensures (rip, rsp) == BackTo(call, old(rip), old(rsp))
    {
      hide TableOk, ReapedOk, Occupied, Evolves, TraceOk, Exited, ForkedTo, Execed, Waited, Sent, HandlerSet, Returned,
           FeelAll;
      result, frame := Some(0), None;
      match call {
        case Exit(code) =>
          SysExit(c, code);
        case Fork(child) =>
          var r := SysFork(c, child);
          result := Some(r);
        case Exec(image) =>
          var r := SysExec(c, image);
          result := Some(r);
        case Waitpid(requested, status, noHang) =>
          var r := SysWaitpid(c, requested, status, noHang);
          result := Some(r);
        case Signal(pid, sig) =>
          result := SysKill(c, pid, sig);
        case Sigaction(sig, handler) =>
          var r := SysSigaction(c, sig, handler);
          result := Some(r);
        case ReturnFromHandler =>
          frame := SysSigreturn(c);
        case ReadTerminal(effects, got) =>
          ghost var start := slots;
          TtyInput(effects, c);
          if got.Some? {
            result := Some(got.value);
          } else {
            ghost var before := slots;
            TtyBlock(c);
            Chain(start, nextPid, before, nextPid, slots, nextPid);
          }
        case Other(value) =>
          EvolvesRefl(slots, nextPid);
          result := Some(value);
      }
    }

    /** The gate, which leaves `gated`, and, if it passes, the call itself. */
    method Serve(c: nat,
                 call: Call) returns (dispatched: bool, result: Option<int>, frame: Option<Frame>, ghost gated: Slots)
      requires Calling(c) && CallShape(call) && History(trace, slots, nextPid)
      modifies this`slots, this`nextPid, this`count, this`reaped, this`shouldSchedule, this`cr3, this`rip, this`rsp,
               this`mem
      ensures Served(c) && Evolves(old(slots), old(nextPid), slots, nextPid) && (result.None? ==> Calling(c))
      ensures History(trace, slots, nextPid)
      ensures old(reaped) <= reaped && SignalOk(old(slots)[c].value)
      ensures Gated(old(slots), gated, c, GateOf(old(slots)[c].value))
      ensures dispatched == GateOf(old(slots)[c].value).Pass?
      ensures Pends(old(slots)[c].value, SIGKILL) ==> !dispatched
      ensures At(gated, c, old(current)) && (frame.Some? ==> shouldSchedule && |frame.value.gprs| == 15)
      ensures dispatched ==>
        Did(gated, old(nextPid), slots, c, call, Space(old(mem), old(cr3)), Space(mem, old(cr3)), result, frame)
      ensures !dispatched ==> slots == gated && mem == old(mem) && result == Some(0) && frame.None?
      ensures OthersSame(old(mem), mem, old(cr3))
      ensures (rip, rsp) == if dispatched then BackTo(call, old(rip), old(rsp)) else (old(rip), old(rsp))
    {
      hide TableOk, ReapedOk, Occupied, Evolves, ProcOk, TraceOk, Gated, GateOf, SignalOk, Did, History, CallShape;
      ghost var start, n0 := slots, nextPid;
      dispatched := CheckSignals(c);
      result, frame, gated := Some(0), None, slots;
      if dispatched {
        result, frame := Dispatch(c, call);
        Chain(start, n0, gated, n0, slots, nextPid);
      }
      GatedWait(start, gated, n0, c, GateOf(start[c].value));
      if dispatched {
        DidWait(gated, n0, slots, c, call, Space(old(mem), old(cr3)), Space(mem, old(cr3)), result, frame);
        WaitTrans(start, gated, slots, n0, n0, c);
      }
      HistoryKept(trace, start, n0, slots, nextPid, c);
    }

    /**
      A whole system call of the current process: the gate, which leaves `gated`; if it passes, the call itself,
      which leaves `served`; then the way out, through the scheduler if asked for. Nothing follows a panic.
     */
    method Syscall(call: Call, userRip: nat, userRsp: nat)
      returns (dispatched: bool, result: Option<int>, ghost c: nat, ghost gated: Slots, ghost served: Slots,
               ghost user: Words, ghost frame: Option<Frame>,
               ghost switched: bool)
      requires Valid() && current != IDLE_PID && CallShape(call)
      modifies this
      ensures Valid() && Evolves(old(slots), old(nextPid), slots, nextPid) && old(reaped) <= reaped
      ensures At(old(slots), c, old(current)) && SignalOk(old(slots)[c].value)
      ensures Gated(old(slots), gated, c, GateOf(old(slots)[c].value))
      ensures dispatched == GateOf(old(slots)[c].value).Pass?
      ensures Pends(old(slots)[c].value, SIGKILL) ==> !dispatched
      ensures At(gated, c, old(current)) && At(served, c, old(current))
      ensures if dispatched then Did(gated, old(nextPid), served, c, call, Space(old(mem), old(cr3)), user, result,
                                     frame)
              else served == gated && result == Some(0) && frame.None?
      ensures (rip, rsp) == if dispatched then BackTo(call, userRip, userRsp) else (userRip, userRsp)
      ensures if result.None? then !switched else served[c].value.state != Running || frame.Some? ==> switched
      ensures !switched ==> slots == served
      ensures switched ==> trace != []
      ensures switched ==>
                SwitchedFrom(served, old(current), c,
                             if frame.Some? then frame.value else SyscallFrame(ToU64(result.value), rip, rsp),
                             slots, trace[|trace| - 1].to)
      ensures switched ==>
                LeftWith(old(trace), trace, c, old(current),
                         if frame.Some? then frame.value else SyscallFrame(ToU64(result.value), rip, rsp), slots)
    {
      hide TableOk, ReapedOk, Occupied, Evolves, ProcOk, TraceOk, Gated, GateOf, SignalOk, SwitchedFrom, LeftWith, Did,
           History,
           CallShape, OthersSame;
      ghost var start, n0 := slots, nextPid;
      ghost var c0: nat :| InKernel(c0) && slots[c0].value.state == Running;
      rip, rsp := userRip, userRsp;
      var s := Lookup(current);
      PidSlot(slots, nextPid, s, c0, current);
      var i := s.value;
      var resumed;
      dispatched, result, resumed, gated := Serve(i, call);
      c, served, user, frame := i, slots, Space(mem, old(cr3)), resumed;
      switched := result.Some? && shouldSchedule;
      if result.None? {
        assert InKernel(i);
        return;
      }
      Leave(i, if resumed.Some? then resumed.value else SyscallFrame(ToU64(result.value), rip, rsp));
      Chain(start, n0, served, nextPid, slots, nextPid);
    }

    /** The way out of a system call, through the scheduler if it was asked for. */
    method Leave(c: nat, regs: Frame)
      requires Served(c) && |regs.gprs| == 15 && History(trace, slots, nextPid)
      modifies this`slots, this`mem, this`current, this`cr3, this`rsp0, this`kstack, this`trace, this`shouldSchedule
      ensures Valid() && Evolves(old(slots), nextPid, slots, nextPid)
      ensures !old(shouldSchedule) ==> slots == old(slots)
      ensures old(shouldSchedule) ==>
        trace != [] && SwitchedFrom(old(slots), old(current), c, regs, slots, trace[|trace| - 1].to)
      ensures old(shouldSchedule) ==> LeftWith(old(trace), trace, c, old(current), regs, slots)
    {
      hide TableOk, ReapedOk, Occupied, Evolves, ProcOk, TraceOk, Switched, History;
      if !shouldSchedule {
        EvolvesRefl(slots, nextPid);
        assert InKernel(c);
        return;
      }
      shouldSchedule := false;
      SaveAndSwitch(regs, c);
    }

    /**
      Any run from a state in which user or idle code runs. At its end exactly one process is Running, it is
      the current one with its own address space and stacks, and no doomed process has escaped.
     */
    method Run(events: seq<Event>)
      requires Valid() && forall i :: 0 <= i < |events| && events[i].Tick? ==> |events[i].regs.gprs| == 15
      requires forall i :: 0 <= i < |events| && events[i].Sys? ==> CallShape(events[i].call)
      modifies this
      ensures Valid() && Evolves(old(slots), old(nextPid), slots, nextPid) && old(reaped) <= reaped
    {
      hide TableOk, ReapedOk, Occupied, Evolves, ProcOk, TraceOk, History;
      ghost var start, n0 := slots, nextPid;
      ghost var c0: nat :| InKernel(c0) && slots[c0].value.state == Running;
      EvolvesRefl(slots, nextPid);
      var i := 0;
      while i < |events|
        invariant 0 <= i <= |events| && Valid() && TableOk(start, n0) && Evolves(start, n0, slots, nextPid)
        invariant old(reaped) <= reaped
      {
        ghost var before, n1 := slots, nextPid;
        match events[i] {
          case Tick(effects, regs) =>
            ghost var c: nat :| InKernel(c) && slots[c].value.state == Running;
            TtyInput(effects, c);
            ghost var polled := slots;
            Chain(start, n0, before, n1, polled, n1);
            FeelAllWait(before, effects, n1, c);
            HistoryKept(trace, before, n1, polled, n1, c);
            assert InKernel(c);
            ghost var from := SchedulerTick(regs);
            Chain(start, n0, polled, n1, slots, nextPid);
          case Sys(call, rip, rsp) =>
            if current != IDLE_PID {
              ghost var c, gated, served, user, frame, switched;
              var dispatched, result;
              dispatched, result, c, gated, served, user, frame, switched := Syscall(call, rip, rsp);
              Chain(start, n0, before, n1, slots, nextPid);
              if result.None? {
                return;
              }
            }
          case UserStore(words) =>
            ghost var c: nat :| InKernel(c) && slots[c].value.state == Running;
            mem := mem[cr3 := words];
            assert InKernel(c);
        }
        i := i + 1;
      }
    }
  }

  /** What terminal input does to a recorded reader. */
  datatype TtyEffect = Wake(pid: nat) | Interrupt(pid: nat)

  /** System calls that touch process state; what they get from memory, files and the terminal is a parameter. */
  datatype Call = Exit(code: nat) | Fork(child: Option<(nat, nat, Frame)>)
    | Exec(image: Option<Program>) | Waitpid(requested: int, status: nat, noHang: bool)
    | Signal(pid: nat, sig: nat) | Sigaction(sig: nat, handler: Option<nat>) | ReturnFromHandler
    | ReadTerminal(effects: seq<TtyEffect>, got: Option<nat>) | Other(result: nat)

  /** A built image: its root, lowest stack address, entry point and first stack pointer. */
  datatype Program = Program(root: nat, stackLow: nat, entry: nat, rsp: nat)

  /** A timer tick, a system call, or the running program changing its memory. */
  datatype Event = Tick(effects: seq<TtyEffect>,
                        regs: Frame) | Sys(call: Call, rip: nat, rsp: nat) | UserStore(words: Words)

  predicate CallShape(call: Call) {
    match call
    case Fork(child) => child.Some? ==> |child.value.2.gprs| == 15
    case Exec(image) => image.Some? ==> 0 < image.value.stackLow < U64 - SIGFRAME_SIZE
    case _ => true
  }

  /** Where a call returns to: exec goes to the new program. */
  function BackTo(call: Call, rip: nat, rsp: nat): (nat, nat) {
    if call.Exec? && call.image.Some? then (call.image.value.entry, call.image.value.rsp) else (rip, rsp)
  }

  /** A result as the register holds it: errors in two's complement. */
  function ToU64(r: int): (n: nat)
    ensures n < U64 && (0 <= r < U64 ==> n == r) && (r < 0 <= r + U64 ==> n == r + U64)
  {
    r % U64
  }

  lemma InitialOk(slots: Slots, p1: Proc, p2: Proc)
    requires slots == [Some(p1), Some(p2)] + seq(MAX_PROCS - 2, _ => None) && p1.pid == 1 && p2.pid == IDLE_PID
    requires p1.parent == 0 && p2.parent == 0
    requires SignalOk(p1) && SignalOk(p2) && p1.state == Running && p2.state == Ready
    ensures TableOk(slots, 3) && Occupied(slots) == 2 && ReapedOk(slots, 3, [])
  {
    var rest: Slots := seq(MAX_PROCS - 2, _ => None);
    assert slots[1..] == [Some(p2)] + rest && slots[1..][1..] == rest;
    NoneOccupied(rest);
  }

  lemma {:induction false} NoneOccupied(slots: Slots)
    requires forall i :: 0 <= i < |slots| ==> slots[i].None?
    ensures Occupied(slots) == 0
  {
    if slots != [] {
      NoneOccupied(slots[1..]);
    }
  }


  /** Process `p` is a child of `pid` that the request names; -1 names any. */
  predicate Matches(p: Proc, pid: nat, requested: int) {
    p.parent == pid && (requested == -1 || p.pid == requested)
  }

  /** Slot `j` holds the first child, in slot order, that the request names. */
  ghost predicate FirstMatch(slots: Slots, j: nat, pid: nat, requested: int) {
    && j < |slots| && slots[j].Some? && Matches(slots[j].value, pid, requested)
    && forall k :: 0 <= k < j && slots[k].Some? ==> !Matches(slots[k].value, pid, requested)
  }

  /** A forked child: the parent's handlers and stack bound, its own address space and stacks, no pending signals. */
  function Child(parent: Proc, pid: nat, pml4: nat, kstackTop: nat, frame: Frame): Proc {
    Proc(pid, pml4, Ready, kstackTop, parent.pid, 0, 0, false, seq(64, _ => false), parent.handlers, false, 0,
         parent.stackLow, frame)
  }

  /** A process with a new program: its address space and stack bound, fresh signal state. */
  function NewProgram(p: Proc, g: Program): Proc {
    p.(pml4 := g.root, pending := seq(64, _ => false), inSignal := false, sigframe := 0, stackLow := g.stackLow,
       handlers := seq(NUM_SIGS, _ => SIG_DFL))
  }

  // ----- What each system call does to the table --------------------------------------

  ghost predicate Exited(slots: Slots, slots': Slots, c: nat, code: nat) {
    KilledIn(slots, slots', c) && slots'[c] == Some(slots[c].value.(state := Zombie, exitCode := code))
  }

  /**
    Process `q` is child `pid` of `parent`: it is ready in its own address space and on its own stack, with the given
    registers, the parent's handlers and stack bound, nothing pending, and no handler running.
   */
  predicate ChildOf(q: Proc, parent: Proc, pid: nat, child: (nat, nat, Frame)) {
    && q.pid == pid && q.parent == parent.pid && q.state == Ready && q.exitCode == 0 && q.waitFor == 0 && !q.inWait
    && q.pml4 == child.0 && q.kstackTop == child.1 && q.frame == child.2
    && q.handlers == parent.handlers && q.stackLow == parent.stackLow
    && |q.pending| == 64 && Quiet(q.pending) && !q.inSignal && q.sigframe == 0
  }

  /** Slot `i` was the first free one and now holds child `pid` of the process in slot `c`. */
  ghost predicate ChildIn(slots: Slots, slots': Slots, c: nat, i: nat, pid: nat, child: (nat, nat, Frame))
    requires c < |slots| && slots[c].Some?
  {
    && i < |slots| && slots[i].None? && (forall k :: 0 <= k < i ==> slots[k].Some?)
    && |slots'| == |slots| && slots'[i].Some? && slots' == slots[i := slots'[i]]
    && ChildOf(slots'[i].value, slots[c].value, pid, child)
  }

  ghost predicate ForkedTo(slots: Slots, nextPid: nat, slots': Slots, c: nat, child: Option<(nat, nat, Frame)>, r: int)
    requires c < |slots| && slots[c].Some?
  {
    if child.None? then r < 0 && slots' == slots
    else if forall k :: 0 <= k < |slots| ==> slots[k].Some? then r == -1 && slots' == slots
    else r == nextPid > 0 && exists i :: ChildIn(slots, slots', c, i, nextPid, child.value)
  }

  /** Process `p` runs program `g` as `q`: a new address space and stack bound, and all signal state reset. */
  predicate Restarted(p: Proc, q: Proc, g: Program) {
    && q.pml4 == g.root && q.stackLow == g.stackLow && |q.pending| == 64 && Quiet(q.pending)
    && !q.inSignal && q.sigframe == 0 && |q.handlers| == 32 && (forall i :: 0 <= i < 32 ==> q.handlers[i] == 0)
    && q.pid == p.pid && q.parent == p.parent && q.state == p.state && q.kstackTop == p.kstackTop
    && q.exitCode == p.exitCode && q.waitFor == p.waitFor && q.inWait == p.inWait && q.frame == p.frame
  }

  ghost predicate Execed(slots: Slots, slots': Slots, c: nat, image: Option<Program>, r: int)
    requires c < |slots| && slots[c].Some?
  {
    if image.None? then r < 0 && slots' == slots
    else
      && r == 0 && |slots'| == |slots| && slots'[c].Some? && slots' == slots[c := slots'[c]]
      && Restarted(slots[c].value, slots'[c].value, image.value)
  }

  /** The first match is in slot `m`: a zombie is removed and its exit code stored, a live child is waited for. */
  ghost predicate WaitedOn(slots: Slots, slots': Slots, c: nat, m: nat, requested: int, status: nat, noHang: bool,
                           user: Words, user': Words, r: int)
    requires c < |slots| && slots[c].Some?
  {
    && FirstMatch(slots, m, slots[c].value.pid, requested)
    && if slots[m].value.state == Zombie then
         && r == slots[m].value.pid > 0 && slots' == slots[m := None]
         && user' == if status == 0 then user else user[status := slots[m].value.exitCode]
       else
         && r == 0 && user' == user
         && slots' ==
            if noHang then slots
            else slots[c := Some(slots[c].value.(waitFor := slots[m].value.pid, state := Blocked, inWait := true))]
  }

  ghost predicate Waited(slots: Slots, slots': Slots, c: nat, requested: int, status: nat, noHang: bool, user: Words,
                         user': Words, r: int)
    requires c < |slots| && slots[c].Some?
  {
    if forall k :: 0 <= k < |slots| && slots[k].Some? ==> !Matches(slots[k].value, slots[c].value.pid, requested) then
      r == -1 && slots' == slots && user' == user
    else exists m: nat :: WaitedOn(slots, slots', c, m, requested, status, noHang, user, user', r)
  }

  lemma WaitReaped(slots: Slots, slots': Slots, c: nat, m: nat, requested: int, status: nat, noHang: bool, user: Words,
                   user': Words)
    requires c < |slots| && slots[c].Some? && FirstMatch(slots, m, slots[c].value.pid, requested)
    requires slots[m].value.state == Zombie && slots[m].value.pid > 0 && slots' == slots[m := None]
    requires user' == if status == 0 then user else user[status := slots[m].value.exitCode]
    ensures Waited(slots, slots', c, requested, status, noHang, user, user', slots[m].value.pid)
  {
    assert WaitedOn(slots, slots', c, m, requested, status, noHang, user, user', slots[m].value.pid);
  }

  lemma WaitBlocks(slots: Slots, slots': Slots, c: nat, m: nat, requested: int, status: nat, noHang: bool, user: Words)
    requires c < |slots| && slots[c].Some? && FirstMatch(slots, m, slots[c].value.pid, requested)
    requires slots[m].value.state != Zombie
    requires slots' ==
      if noHang then slots
      else slots[c := Some(slots[c].value.(waitFor := slots[m].value.pid, state := Blocked, inWait := true))]
    ensures Waited(slots, slots', c, requested, status, noHang, user, user, 0)
  {
    assert WaitedOn(slots, slots', c, m, requested, status, noHang, user, user, 0);
  }

  lemma OthersRefl(mem: map<nat, Words>, pml4: nat)
    ensures OthersSame(mem, mem, pml4)
  {
  }

  /** Every address space but one is as it was. */
  ghost predicate OthersSame(mem: map<nat, Words>, mem': map<nat, Words>, pml4: nat) {
    forall p: nat :: p != pml4 ==> Space(mem', p) == Space(mem, p)
  }

  /** `q` is `p` with signal `sig` pending, and ready if it was blocked. */
  predicate Signalled(p: Proc, q: Proc, sig: nat) {
    && |p.pending| == |q.pending| == 64
    && (forall k :: 0 <= k < 64 ==> (q.pending[k] <==> p.pending[k] || k == sig))
    && q.state == (if p.state == Blocked then Ready else p.state) && q.inWait == (p.inWait && p.state != Blocked)
    && q == p.(pending := q.pending, state := q.state, inWait := q.inWait)
  }

  /** Process `pid` in slot `i` has the signal raised, unless it is a zombie. */
  ghost predicate SentTo(slots: Slots, slots': Slots, i: nat, pid: nat, sig: nat, r: int)
    requires sig < 64
  {
    && At(slots, i, pid)
    && if slots[i].value.state == Zombie then r == -3 && slots' == slots
       else
         && r == 0 && |slots'| == |slots| && slots'[i].Some? && slots' == slots[i := slots'[i]]
         && Signalled(slots[i].value, slots'[i].value, sig)
  }

  ghost predicate Sent(slots: Slots, slots': Slots, pid: nat, sig: nat, r: Option<int>) {
    if pid == 0 || sig == 0 || sig >= 32 then r == Some(-22) && slots' == slots
    else if pid == IDLE_PID then r == Some(0) && slots' == slots
    else if !Present(slots, pid) then r == None && slots' == slots
    else r.Some? && exists i: nat :: SentTo(slots, slots', i, pid, sig, r.value)
  }

  ghost predicate HandlerSet(slots: Slots, slots': Slots, c: nat, sig: nat, handler: Option<nat>, r: int)
    requires c < |slots| && slots[c].Some?
  {
    if sig == 0 || sig >= 32 || sig == SIGKILL then r == -22 && slots' == slots
    else r == 0 && if handler.None? then slots' == slots
         else
           && sig < |slots[c].value.handlers|
           && slots' == slots[c := Some(slots[c].value.(handlers := slots[c].value.handlers[sig := handler.value]))]
  }

  /**
    The handler's frame is undone from the words saved in user memory; the registers are restored through the
    frame resumed.
   */
  ghost predicate Returned(slots: Slots, slots': Slots, c: nat, user: Words, frame: Option<Frame>)
    requires c < |slots| && slots[c].Some?
  {
    var p := slots[c].value;
    if p.sigframe == 0 then frame.None? && slots' == slots
    else var q := Sigreturn(p, Load(user, p.sigframe, 20));
      frame == Some(q.frame) && slots' == slots[c := Some(q.(frame := p.frame))]
  }

  /**
    What one piece of terminal input does to a process: only a blocked reader with the recorded number is
    concerned.
   */
  function Felt(p: Proc, e: TtyEffect): Proc {
    if p.state != Blocked || p.pid != e.pid then p
    else if e.Wake? then p.(state := Ready, inWait := false)
    else p.(pending := if SIGINT < |p.pending| then p.pending[SIGINT := true] else p.pending)
  }

  /**
    A blocked reader is made ready by a completed byte, and given SIGINT, still blocked, by Ctrl-C; anyone else is left
    alone.
   */
  lemma FeltIs(p: Proc, e: TtyEffect)
    requires |p.pending| == 64
    ensures p.state != Blocked || p.pid != e.pid ==> Felt(p, e) == p
    ensures p.state == Blocked && p.pid == e.pid && e.Wake? ==> Felt(p, e) == p.(state := Ready, inWait := false)
    ensures p.state == Blocked && p.pid == e.pid && e.Interrupt? ==> Felt(p, e) == p.(pending := p.pending[2 := true])
  {
  }

  function Feel(slots: Slots, e: TtyEffect): Slots {
    seq(|slots|, i requires 0 <= i < |slots| => if slots[i].Some? then Some(Felt(slots[i].value, e)) else None)
  }

  function FeelAll(slots: Slots, effects: seq<TtyEffect>): Slots {
    if effects == [] then slots else Feel(FeelAll(slots, effects[..|effects| - 1]), effects[|effects| - 1])
  }

  /** At most one process is concerned. */
  lemma FeelOne(slots: Slots, nextPid: nat, i: Option<nat>, e: TtyEffect)
    requires TableOk(slots, nextPid) && (if i.Some? then At(slots, i.value, e.pid) else !Present(slots, e.pid))
    ensures Feel(slots, e) == if i.Some? then slots[i.value := Some(Felt(slots[i.value].value, e))] else slots
  {
    hide TableOk, Felt;
    var to := if i.Some? then slots[i.value := Some(Felt(slots[i.value].value, e))] else slots;
    if i.Some? {
      OnlySlot(slots, nextPid, i.value, e.pid);
    }
    forall k | 0 <= k < |slots| ensures Feel(slots, e)[k] == to[k] {
      if slots[k].Some? && (i.None? || k != i.value) {
        assert !At(slots, k, e.pid);
        OthersFeelNothing(slots[k].value, e);
      }
    }
  }

  lemma OthersFeelNothing(p: Proc, e: TtyEffect)
    requires p.pid != e.pid
    ensures Felt(p, e) == p
  {
  }

  /**
    A call that passed the gate, made by the process in slot `c`: its result, None for a panic, the frame it
    resumes, the new table and user memory.
   */
  ghost predicate Did(slots: Slots, nextPid: nat, slots': Slots, c: nat, call: Call, user: Words, user': Words,
                      r: Option<int>, frame: Option<Frame>)
    requires c < |slots| && slots[c].Some?
  {
    && (!call.ReturnFromHandler? ==> frame.None?) && (!call.Waitpid? ==> user' == user) && (!call.Signal? ==> r.Some?)
    && match call
       case Exit(code) => Exited(slots, slots', c, code)
       case Fork(child) => ForkedTo(slots, nextPid, slots', c, child, r.value)
       case Exec(image) => Execed(slots, slots', c, image, r.value)
       case Waitpid(requested, status, noHang) =>
         Waited(slots, slots', c, requested, status, noHang, user, user', r.value)
       case Signal(pid, sig) => Sent(slots, slots', pid, sig, r)
       case Sigaction(sig, handler) => HandlerSet(slots, slots', c, sig, handler, r.value)
       case ReturnFromHandler => r == Some(0) && Returned(slots, slots', c, user, frame)
       case ReadTerminal(effects, got) =>
         var felt := FeelAll(slots, effects);
         && c < |felt| && felt[c].Some?
         && if got.Some? then r == Some(got.value) && slots' == felt
            else r == Some(0) && slots' == felt[c := Some(felt[c].value.(state := Blocked, inWait := false))]
       case Other(value) => r == Some(value) && slots' == slots
  }

  /** One round of the gate's loop. */
  lemma CheckStep(p: Proc, sig: nat, custom: bool)
    requires SignalOk(p) && !p.inSignal && p.pid != IDLE_PID && 1 <= sig < NUM_SIGS
    ensures !p.pending[sig] ==> Check(p, sig, custom) == Check(p, sig + 1, custom)
    ensures p.pending[sig] ==>
      var h, q := p.handlers[sig], Clear(p, sig);
      if h == SIG_IGN || (h == SIG_DFL && !Fatal(sig)) then
        SignalOk(q) && sig != SIGKILL && Check(p, sig, custom) == Check(q, sig + 1, custom)
      else if h == SIG_DFL then
        Check(p, sig, custom) == Terminated(q, 128 + sig) && SignalOk(q.(state := Zombie, exitCode := 128 + sig))
      else sig != SIGKILL && Check(p, sig, custom) == Check(p, sig + 1, true)
  {
  }

  /** The gate's loop over the signals pending for `p`. */
  method GateLoop(p: Proc) returns (g: Gate)
    requires SignalOk(p) && !p.inSignal && p.pid != IDLE_PID
    ensures g == Check(p, 1, false)
  {
    hide Check;
    var q, sig, custom := p, 1, false;
    while sig < NUM_SIGS
      invariant 1 <= sig <= NUM_SIGS && SignalOk(q) && q.inSignal == p.inSignal && q.pid == p.pid
      invariant Check(q, sig, custom) == Check(p, 1, false)
    {
      CheckStep(q, sig, custom);
      if q.pending[sig] {
        var h := q.handlers[sig];
        if h == SIG_IGN {
          q := Clear(q, sig);
        } else if h == SIG_DFL {
          if Fatal(sig) {
            return Terminated(Clear(q, sig), 128 + sig);
          }
          q := Clear(q, sig);
        } else {
          custom := true;
        }
      }
      sig := sig + 1;
    }
    CheckLast(q, custom);
    return if custom then Deferred(q) else Pass(q);
  }

  lemma TerminatedOk(p: Proc)
    requires SignalOk(p) && !p.inSignal && p.pid != IDLE_PID && Check(p, 1, false).Terminated?
    ensures var g := Check(p, 1, false); SameImage(p, g.p) && SignalOk(g.p.(state := Zombie, exitCode := g.code))
  {
  }

  lemma PassedOk(p: Proc)
    requires SignalOk(p) && !p.inSignal && p.pid != IDLE_PID && !Check(p, 1, false).Terminated?
    ensures var g := Check(p, 1, false);
      SignalOk(g.p) && FateKept(p, g.p) && g.p.pid == p.pid && g.p.parent == p.parent && g.p.state == p.state
    ensures !p.pending[SIGKILL] && !Check(p, 1, false).p.pending[SIGKILL]
    ensures Check(p, 1, false).p.pml4 == p.pml4 && Check(p, 1, false).p.kstackTop == p.kstackTop
  {
  }

  /** The table after the gate: the caller with what is left pending, or a zombie. */
  ghost predicate Gated(slots: Slots, slots': Slots, c: nat, g: Gate)
    requires c < |slots|
  {
    if g.Terminated? then KilledIn(slots, slots', c) && slots'[c] == Some(g.p.(state := Zombie, exitCode := g.code))
    else slots' == slots[c := Some(g.p)]
  }

  /** What `sigreturn` leaves in the table, and the frame it resumes, are together the undoing of delivery. */
  lemma ReturnedOk(p: Proc, words: seq<nat>)
    requires SignalOk(p) && |words| == 20 && p.state == Running && !p.pending[SIGKILL]
    ensures var q := p.(sigframe := 0, inSignal := false, pending := ToBits(words[19], 64));
      && SignalOk(q) && FateKept(p, q) && |PushedFrame(SigreturnBuffer(words)).gprs| == 15
      && q.(frame := PushedFrame(SigreturnBuffer(words))) == Sigreturn(p, words)
  {
  }

  lemma EndKeeps(slots: Slots, slots': Slots, n: nat, nextPid: nat)
    requires KilledIn(slots, slots', n)
    requires forall i :: 0 <= i < |slots| && i != n && slots[i].Some? ==> slots[i].value.state != Running
    ensures Evolves(slots, nextPid, slots', nextPid)
    ensures forall i :: 0 <= i < |slots'| && i != n && slots'[i].Some? ==> slots'[i].value.state != Running
  {
    EvolvesSlots(slots, slots', nextPid);
  }

  /** A number handed out without a slot. */
  lemma OneMorePid(slots: Slots, nextPid: nat, reaped: seq<nat>)
    requires TableOk(slots, nextPid) && ReapedOk(slots, nextPid, reaped)
    ensures TableOk(slots, nextPid + 1) && ReapedOk(slots, nextPid + 1, reaped)
    ensures Evolves(slots, nextPid, slots, nextPid + 1)
  {
  }

  /** The next number is not in use. */
  lemma NotYet(slots: Slots, nextPid: nat)
    requires TableOk(slots, nextPid)
    ensures !Present(slots, nextPid) && nextPid > 0
  {
  }

  /** A new process in a free slot. */
  lemma Forked(slots: Slots, nextPid: nat, reaped: seq<nat>, c: nat, i: nat, q: Proc)
    requires TableOk(slots, nextPid) && ReapedOk(slots, nextPid, reaped) && i < |slots| && slots[i].None? && c < |slots|
    requires slots[c].Some?
    requires q.pid == nextPid && q.parent == slots[c].value.pid && SignalOk(q) && q.state == Ready
    ensures var slots' := slots[i := Some(q)];
      && TableOk(slots', nextPid + 1) && ReapedOk(slots', nextPid + 1, reaped)
      && Occupied(slots') == Occupied(slots) + 1
      && Evolves(slots, nextPid, slots', nextPid + 1) && !Present(slots, nextPid)
  {
    var slots' := slots[i := Some(q)];
    forall k | 0 <= k < MAX_PROCS ensures WaitOk(slots', k) {
      assert WaitOk(slots, k);
      if k != i && slots[k].Some? && slots[k].value.state == Blocked && slots[k].value.inWait {
        var j :| LiveChild(slots, j, slots[k].value.waitFor, slots[k].value.pid);
        assert LiveChild(slots', j, slots[k].value.waitFor, slots[k].value.pid);
      }
    }
    OccupiedUpdate(slots, i, Some(q));
    forall pid: nat ensures Present(slots', pid) ==> Present(slots, pid) || pid == nextPid {
      if Present(slots', pid) {
        var j :| At(slots', j, pid);
        assert j != i ==> At(slots, j, pid);
      }
    }
  }

  /** A child is not the process itself, nor idle. */
  lemma ChildApart(slots: Slots, nextPid: nat, c: nat, j: nat)
    requires TableOk(slots, nextPid) && c < |slots| && slots[c].Some? && j < |slots| && slots[j].Some?
    requires slots[j].value.parent == slots[c].value.pid
    ensures j != c && j != IDLE_SLOT && slots[j].value.pid > 0
  {
    assert ProcOk(slots[c].value, nextPid) && ProcOk(slots[j].value, nextPid);
  }

  /** Removing a zombie. */
  lemma Reaped(slots: Slots, nextPid: nat, reaped: seq<nat>, c: nat, j: nat)
    requires TableOk(slots, nextPid) && ReapedOk(slots, nextPid, reaped) && j < |slots| && slots[j].Some?
    requires slots[j].value.state == Zombie && j != IDLE_SLOT
    ensures var slots', pid := slots[j := None], slots[j].value.pid;
      && TableOk(slots', nextPid) && ReapedOk(slots', nextPid, reaped + [pid])
      && Occupied(slots') == Occupied(slots) - 1
      && Evolves(slots, nextPid, slots', nextPid) && pid !in reaped && !Present(slots', pid)
  {
    var slots', pid := slots[j := None], slots[j].value.pid;
    forall k | 0 <= k < MAX_PROCS ensures WaitOk(slots', k) {
      assert WaitOk(slots, k);
      if k != j && slots[k].Some? && slots[k].value.state == Blocked && slots[k].value.inWait {
        var i :| LiveChild(slots, i, slots[k].value.waitFor, slots[k].value.pid);
        assert LiveChild(slots', i, slots[k].value.waitFor, slots[k].value.pid);
      }
    }
    OccupiedUpdate(slots, j, None);
    assert At(slots, j, pid);
    forall n: nat ensures Present(slots', n) <==> Present(slots, n) && n != pid {
      if Present(slots', n) {
        var i :| At(slots', i, n);
        assert At(slots, i, n);
      }
      if Present(slots, n) && n != pid {
        var i :| At(slots, i, n);
        assert At(slots', i, n);
      }
    }
  }

  /** Blocking on a live child. */
  lemma BlockOk(slots: Slots, nextPid: nat, c: nat, j: nat, q: Proc)
    requires TableOk(slots, nextPid) && c < |slots| && slots[c].Some? && slots[c].value.pid != IDLE_PID && j < |slots|
    requires slots[j].Some? && j != c
    requires slots[j].value.parent == slots[c].value.pid && slots[j].value.state != Zombie
    requires slots[c].value.state != Zombie
    requires q == slots[c].value.(waitFor := slots[j].value.pid, state := Blocked, inWait := true)
    ensures Replaces(slots, nextPid, c, q) && FateKept(slots[c].value, q)
  {
    assert LiveChild(slots, j, q.waitFor, q.pid);
    assert ProcOk(slots[c].value, nextPid);
  }

  lemma BlockedOk(slots: Slots, nextPid: nat, c: nat, q: Proc)
    requires TableOk(slots, nextPid) && c < |slots| && slots[c].Some? && slots[c].value.pid != IDLE_PID
    requires slots[c].value.state != Zombie
    requires q == slots[c].value.(state := Blocked, inWait := false)
    ensures Replaces(slots, nextPid, c, q) && FateKept(slots[c].value, q)
  {
    assert ProcOk(slots[c].value, nextPid);
  }

  lemma StayBlocked(slots: Slots, nextPid: nat, i: nat, q: Proc)
    requires TableOk(slots, nextPid) && i < |slots| && slots[i].Some? && slots[i].value.state == Blocked
    requires |slots[i].value.pending| == 64
    requires q == slots[i].value.(pending := slots[i].value.pending[SIGINT := true])
    ensures Replaces(slots, nextPid, i, q) && FateKept(slots[i].value, q)
  {
    assert ProcOk(slots[i].value, nextPid) && WaitOk(slots, i);
    if q.inWait {
      var j :| LiveChild(slots, j, q.waitFor, q.pid);
      assert j != i;
    }
  }

  /** Raising a signal on a process that is not a zombie. */
  lemma SignalledOk(slots: Slots, nextPid: nat, i: nat, q: Proc)
    requires TableOk(slots, nextPid) && i < |slots| && slots[i].Some? && slots[i].value.state != Zombie
    requires slots[i].value.pid != IDLE_PID
    requires exists sig :: 1 <= sig < 32 && |slots[i].value.pending| == 64 && q == Raised(slots[i].value, sig)
    ensures Replaces(slots, nextPid, i, q) && FateKept(slots[i].value, q)
  {
    assert ProcOk(slots[i].value, nextPid);
  }

  predicate Pends(p: Proc, sig: nat) {
    sig < |p.pending| && p.pending[sig]
  }

  /** The process with the signal pending, ready if it was blocked. */
  function Raised(p: Proc, sig: nat): Proc
    requires |p.pending| == 64 && sig < 64
  {
    p.(pending := p.pending[sig := true], state := if p.state == Blocked then Ready else p.state,
       inWait := p.inWait && p.state != Blocked)
  }

  lemma OnlySlot(slots: Slots, nextPid: nat, i: nat, pid: nat)
    requires TableOk(slots, nextPid) && At(slots, i, pid)
    ensures forall k :: At(slots, k, pid) ==> k == i
  {
    forall k: nat | At(slots, k, pid) ensures k == i {
      SamePid(slots, nextPid, i, k);
    }
  }

  /** Chaining two stretches of a run. */
  lemma Chain(s0: Slots, n0: nat, s1: Slots, n1: nat, s2: Slots, n2: nat)
    requires TableOk(s0, n0) && Evolves(s0, n0, s1, n1) && Evolves(s1, n1, s2, n2)
    ensures Evolves(s0, n0, s2, n2)
  {
    hide Evolves, WaitOk, SignalOk;
    EvolvesTrans(s0, n0, s1, n1, s2, n2);
  }

  /** User memory once delivery has saved the frame of the handler it enters, if it enters one. */
  function WithSavedFrame(mem: map<nat, Words>, p: Proc): map<nat, Words>
    requires SignalOk(p)
  {
    var o := Deliver(p);
    if o.Call?
    then mem[p.pml4 := Store(Space(mem, p.pml4), o.p.sigframe, SavedWords(p.(pending := o.p.pending), o.sig))]
    else mem
  }

  /** Same program, address space, registers and signal frame; a blocked process may have been given the result 0. */
  predicate SameImage(p: Proc, q: Proc) {
    && q.pid == p.pid && q.parent == p.parent && q.pml4 == p.pml4 && q.kstackTop == p.kstackTop
    && (q.frame == p.frame || (p.state == Blocked && q.frame == ZeroResult(p.frame)))
    && q.handlers == p.handlers && q.inSignal == p.inSignal && q.sigframe == p.sigframe && q.stackLow == p.stackLow
  }

  /** `x` is `p`, perhaps woken from a wait. */
  predicate Awake(p: Proc, x: Proc) {
    x == p || (p.state == Blocked && x == Awoken(p))
  }

  /**
    A context switch to slot `n`: every other process keeps its image and registers, and the selected one
    goes on from its saved registers, or in the handler its pending signals call for.
   */
  ghost predicate Switched(slots: Slots, slots': Slots, n: nat) {
    && |slots'| == |slots| && n < |slots| && slots[n].Some? && slots'[n].Some?
    && (forall i :: 0 <= i < |slots| && i != n ==>
          slots'[i].Some? == slots[i].Some? && (slots[i].Some? ==> SameImage(slots[i].value, slots'[i].value)))
    && exists x: Proc :: Awake(slots[n].value, x) && SignalOk(x)
                          && slots'[n].value == Resumed(Deliver(x).p) && |Deliver(x).p.pending| == 64
  }

  /** The process `pid` in slot `c` has its registers saved as `regs`, and slot `n` is switched to. */
  ghost predicate SwitchedFrom(slots: Slots, pid: nat, c: nat, regs: Frame, slots': Slots, n: nat) {
    && At(slots, c, pid)
    && var state := if slots[c].value.state == Running then Ready else slots[c].value.state;
       Switched(slots[c := Some(slots[c].value.(frame := regs, state := state))], slots', n)
  }

  /** The first selection after `before` found `pid` in slot `c` with registers `regs`; the last led to `slots`. */
  ghost predicate LeftWith(before: seq<Pick>, trace: seq<Pick>, c: nat, pid: nat, regs: Frame, slots: Slots) {
    && |before| < |trace| && before <= trace && trace[|trace| - 1].after == slots
    && At(trace[|before|].slots, c, pid) && trace[|before|].slots[c].value.frame == regs
  }

  /**
    After a tick the interrupted process has the registers it was interrupted with, be it waiting or killed; if it is
    selected again it runs on with them, unless delivery kills it or enters a handler.
   */
  lemma TickKeepsRegisters(slots: Slots, pid: nat, c: nat, regs: Frame, slots': Slots, n: nat)
    requires SwitchedFrom(slots, pid, c, regs, slots', n) && slots[c].value.state == Running
    ensures n != c ==> At(slots', c, pid) && slots'[c].value.frame == regs
    ensures var p := slots[c].value.(frame := regs, state := Ready);
      n == c ==> SignalOk(p) && slots'[c] == Some(Resumed(Deliver(p).p))
    ensures n == c && Quiet(slots[c].value.pending) ==> At(slots', c, pid) && slots'[c].value.frame == regs
  {
    hide Deliver;
    if n == c && Quiet(slots[c].value.pending) {
      QuietGoesOn(slots[c].value.(frame := regs, state := Ready));
    }
  }

  lemma QuietGoesOn(p: Proc)
    requires SignalOk(p) && Quiet(p.pending)
    ensures Deliver(p) == Continue(p)
  {
  }

  /**
    Over any run: a process that gave up the processor at selection `t`, was not chosen up to selection `u`, and is
    chosen there with no signal that does anything, runs with exactly the registers it had, unless it had blocked
    with a result other than 0, which by `BlocksWithZero` no system call does.
   */
  lemma RegistersKept(k: Kernel, t: nat, u: nat, j: nat)
    requires k.Valid() && t < u < |k.trace| && Passed(k.trace, t, u, j) && k.trace[u].to == j
    requires j < |k.trace[t].slots| && k.trace[t].slots[j].Some?
    requires At(k.trace[u].slots, j, k.trace[t].slots[j].value.pid) && SignalOk(k.trace[u].slots[j].value)
    requires Deliver(k.trace[u].slots[j].value).Continue?
    ensures var p := k.trace[t].slots[j].value;
      && At(k.trace[u].after, j, p.pid) && k.trace[u].after[j].value.state == Running
      && (p.state != Blocked || ZeroResult(p.frame) == p.frame ==> k.trace[u].after[j].value.frame == p.frame)
      && k.trace[u].after[j].value.frame in {p.frame, ZeroResult(p.frame)}
  {
    hide Deliver;
    RunsOnAsBefore(k.trace, k.slots, k.nextPid, t, u, j);
  }

  // ----- Waiting processes keep their registers ---------------------------------------

  /** Only the process in slot `c` is replaced. */
  lemma OneWaits(slots: Slots, nextPid: nat, c: nat, q: Proc)
    requires c < |slots|
    ensures OthersWait(slots, slots[c := Some(q)], nextPid, c)
  {
  }

  lemma KilledWait(slots: Slots, slots': Slots, nextPid: nat, n: nat)
    requires KilledIn(slots, slots', n)
    ensures OthersWait(slots, slots', nextPid, n)
  {
  }

  lemma GatedWait(slots: Slots, slots': Slots, nextPid: nat, c: nat, g: Gate)
    requires c < |slots| && Gated(slots, slots', c, g)
    ensures OthersWait(slots, slots', nextPid, c)
  {
    if g.Terminated? {
      KilledWait(slots, slots', nextPid, c);
    }
  }

  lemma FeelWait(slots: Slots, e: TtyEffect, nextPid: nat, c: nat)
    ensures OthersWait(slots, Feel(slots, e), nextPid, c)
  {
  }

  lemma {:induction false} FeelAllWait(slots: Slots, effects: seq<TtyEffect>, nextPid: nat, c: nat)
    ensures OthersWait(slots, FeelAll(slots, effects), nextPid, c)
  {
    hide OthersWait, Feel;
    if effects == [] {
      WaitRefl(slots, nextPid, c);
    } else {
      var front, e := effects[..|effects| - 1], effects[|effects| - 1];
      FeelAllWait(slots, front, nextPid, c);
      FeelWait(FeelAll(slots, front), e, nextPid, c);
      WaitTrans(slots, FeelAll(slots, front), FeelAll(slots, effects), nextPid, nextPid, c);
    }
  }

  /** Whatever a system call does, it leaves the registers of everyone but its caller. */
  lemma DidWait(slots: Slots, nextPid: nat, slots': Slots, c: nat, call: Call, user: Words, user': Words,
                r: Option<int>, frame: Option<Frame>)
    requires c < |slots| && slots[c].Some? && Did(slots, nextPid, slots', c, call, user, user', r, frame)
    ensures OthersWait(slots, slots', nextPid, c)
  {
    hide FeelAll, Sigreturn, Load, KilledIn;
    match call {
      case Exit(code) =>
        KilledWait(slots, slots', nextPid, c);
      case Fork(child) =>
      case Exec(image) =>
      case Waitpid(requested, status, noHang) =>
      case Signal(pid, sig) =>
      case Sigaction(sig, handler) =>
      case ReturnFromHandler =>
      case ReadTerminal(effects, got) =>
        FeelAllWait(slots, effects, nextPid, c);
        if got.None? {
          var felt := FeelAll(slots, effects);
          OneWaits(felt, nextPid, c, felt[c].value.(state := Blocked, inWait := false));
          WaitTrans(slots, felt, slots', nextPid, nextPid, c);
        }
      case Other(value) =>
    }
  }

  /** A call that blocks its caller leaves it with the result 0, which waking it does not change. */
  lemma BlocksWithZero(slots: Slots, nextPid: nat, slots': Slots, c: nat, call: Call, user: Words, user': Words,
                       r: Option<int>, frame: Option<Frame>, rip: nat, rsp: nat)
    requires c < |slots| && slots[c].Some? && slots[c].value.state == Running
    requires Did(slots, nextPid, slots', c, call, user, user', r, frame)
    requires c < |slots'| && slots'[c].Some? && slots'[c].value.state == Blocked
    ensures r == Some(0) && frame.None?
    ensures ZeroResult(SyscallFrame(0, rip, rsp)) == SyscallFrame(0, rip, rsp)
  {
    hide FeelAll, Sigreturn, Load, Waited;
    var f := SyscallFrame(0, rip, rsp);
    assert f.gprs[0 := 0] == f.gprs;
    match call {
      case Exit(code) =>
      case Fork(child) =>
      case Exec(image) =>
      case Waitpid(requested, status, noHang) =>
        WaitBlocksWithZero(slots, slots', c, requested, status, noHang, user, user', r.value);
      case Signal(pid, sig) =>
      case Sigaction(sig, handler) =>
      case ReturnFromHandler =>
        SameProcess(slots[c].value, Load(user, slots[c].value.sigframe, 20));
      case ReadTerminal(effects, got) =>
        RunningFeelsNothing(slots, effects, c);
      case Other(value) =>
    }
  }

  lemma WaitBlocksWithZero(slots: Slots, slots': Slots, c: nat, requested: int, status: nat, noHang: bool, user: Words,
                           user': Words, r: int)
    requires c < |slots| && slots[c].Some? && slots[c].value.state == Running && c < |slots'| && slots'[c].Some?
    requires Waited(slots, slots', c, requested, status, noHang, user, user', r) && slots'[c].value.state == Blocked
    ensures r == 0
  {
  }

  lemma {:induction false} RunningFeelsNothing(slots: Slots, effects: seq<TtyEffect>, c: nat)
    requires c < |slots| && slots[c].Some? && slots[c].value.state == Running
    ensures |FeelAll(slots, effects)| == |slots| && FeelAll(slots, effects)[c] == slots[c]
  {
    if effects != [] {
      RunningFeelsNothing(slots, effects[..|effects| - 1], c);
    }
  }

  /** The history while nobody is selected. */
  lemma HistoryKept(trace: seq<Pick>, slots: Slots, nextPid: nat, slots': Slots, nextPid': nat, c: nat)
    requires History(trace, slots, nextPid) && TableOk(slots', nextPid') && Evolves(slots, nextPid, slots', nextPid')
    requires OthersWait(slots, slots', nextPid, c) && (trace != [] ==> trace[|trace| - 1].to == c)
    ensures History(trace, slots', nextPid')
  {
    hide KillOk, FrameOk, OthersWait, TableOk;
    KillsKept(trace, slots, nextPid, slots', nextPid');
    FramesKept(trace, slots, nextPid, slots', nextPid', c);
  }

  lemma HistoryPicked(trace: seq<Pick>, slots: Slots, nextPid: nat, x: Pick)
    requires History(trace, slots, nextPid) && x.slots == slots && WentOn(x)
    requires OthersWait(slots, x.after, nextPid, x.to)
    requires TableOk(slots, nextPid) && TableOk(x.after, nextPid) && Evolves(slots, nextPid, x.after, nextPid)
    requires slots[x.to].value.state != Zombie && At(x.after, x.to, slots[x.to].value.pid)
    ensures History(trace + [x], x.after, nextPid)
  {
    hide KillOk, FrameOk, OthersWait, Evolves, SignalOk, Deliver, WaitOk;
    assert PidsBelow(slots, nextPid);
    FramesPicked(trace, slots, nextPid, x);
    KillCounted(trace, slots, nextPid, x);
  }

  lemma Went(x: Pick)
    requires x.to < |x.slots| && x.slots[x.to].Some? && SignalOk(x.slots[x.to].value) && x.to < |x.after|
    requires var o := Deliver(x.slots[x.to].value);
      x.after[x.to] == Some(if o.Kill? then o.p.(state := Zombie, exitCode := o.code) else Resumed(o.p))
    ensures WentOn(x)
  {
  }

  /** The processes have been woken or killed, nothing else. */
  ghost predicate Stirred(slots: Slots, slots': Slots) {
    && |slots'| == |slots|
    && forall i :: 0 <= i < |slots| ==> slots'[i].Some? == slots[i].Some? && (slots[i].Some? ==>
         && SameImage(slots[i].value, slots'[i].value)
         && (slots'[i].value.state == Zombie
             || (slots[i].value.state != Zombie && Awake(slots[i].value, slots'[i].value))))
  }

  lemma StirredRefl(slots: Slots)
    ensures Stirred(slots, slots)
  {
  }

  lemma StirredTrans(a: Slots, b: Slots, c: Slots)
    requires Stirred(a, b) && Stirred(b, c)
    ensures Stirred(a, c)
  {
  }

  /** The ready process in slot `k` runs on, after delivery. */
  ghost predicate RunFrom(b: Slots, c: Slots, n: nat) {
    && n < |b| && b[n].Some? && b[n].value.state == Ready && SignalOk(b[n].value)
    && |Deliver(b[n].value).p.pending| == 64 && c == b[n := Some(Resumed(Deliver(b[n].value).p))]
  }

  lemma StirredThenRun(a: Slots, b: Slots, c: Slots, n: nat)
    requires Stirred(a, b) && RunFrom(b, c, n)
    ensures Switched(a, c, n)
  {
    hide Deliver, SignalOk;
    assert Awake(a[n].value, b[n].value);
  }

  /** From `slots` to `slots'` the process in slot `n` died; others may have been woken but none was started. */
  ghost predicate KilledIn(slots: Slots, slots': Slots, n: nat) {
    && |slots'| == |slots| && n < |slots| && slots[n].Some? && At(slots', n, slots[n].value.pid)
    && slots'[n].value.state == Zombie
    && SameImage(slots[n].value, slots'[n].value)
    && forall i :: 0 <= i < |slots| && i != n ==>
         && slots'[i].Some? == slots[i].Some?
         && (slots[i].Some? ==>
               slots'[i].value == slots[i].value || slots'[i].value == Woken(slots[i].value, slots[n].value.pid))
  }

  lemma KilledKeeps(slots: Slots, slots': Slots, n: nat, nextPid: nat)
    requires KilledIn(slots, slots', n) && NoneRunning(slots)
    ensures NoneRunning(slots') && At(slots', n, slots[n].value.pid) && slots'[n].value.state == Zombie
    ensures Evolves(slots, nextPid, slots', nextPid) && Stirred(slots, slots')
  {
    EvolvesSlots(slots, slots', nextPid);
    forall i | 0 <= i < |slots| && slots[i].Some?
      ensures SameImage(slots[i].value, slots'[i].value)
      ensures slots'[i].value.state == Zombie
        || (slots[i].value.state != Zombie && Awake(slots[i].value, slots'[i].value))
    {
      WokenAwake(slots[i].value, slots[n].value.pid);
    }
  }

  lemma WokenAwake(p: Proc, pid: nat)
    ensures SameImage(p, Woken(p, pid)) && Awake(p, Woken(p, pid)) && SameImage(p, p) && Awake(p, p)
  {
  }

  /** Replacing one process by a state that keeps its fate. */
  lemma OneKeeps(slots: Slots, nextPid: nat, i: nat, q: Proc)
    requires i < |slots| && slots[i].Some? && FateKept(slots[i].value, q)
    ensures Evolves(slots, nextPid, slots[i := Some(q)], nextPid)
  {
    EvolvesSlots(slots, slots[i := Some(q)], nextPid);
  }

  /** The selected process, not killed by its signals, may be set running. */
  lemma RunOn(before: Slots, slots: Slots, nextPid: nat, k: nat)
    requires TableOk(before, nextPid) && TableOk(slots, nextPid) && k < |before| && before[k].Some?
    requires before[k].value.state == Ready
    requires SignalOk(before[k].value) && !Deliver(before[k].value).Kill?
    requires slots == before[k := Some(Deliver(before[k].value).p)]
    ensures |slots[k].value.pending| == 64 && Replaces(slots, nextPid, k, Resumed(slots[k].value))
    ensures Resumed(slots[k].value).pml4 == before[k].value.pml4
    ensures Resumed(slots[k].value).kstackTop == before[k].value.kstackTop
    ensures Resumed(slots[k].value).pid == before[k].value.pid && FateKept(before[k].value, Resumed(slots[k].value))
  {
    hide TableOk, Deliver;
    var p := before[k].value;
    DeliverKeeps(p);
    DeliveredOk(p);
    ResumedOk(p);
    SetRunning(slots, nextPid, k, Resumed(slots[k].value));
    if p.pid != IDLE_PID && p.pending[SIGKILL] {
      KillAtSelection(p);
    }
  }

  lemma RunsOn(before: Slots, slots: Slots, nextPid: nat, k: nat)
    requires k < |before| && before[k].Some? && NoneRunning(before) && k < |slots| && slots[k].Some?
    requires FateKept(before[k].value, slots[k].value)
    requires slots == before[k := slots[k]]
    ensures Evolves(before, nextPid, slots, nextPid)
    ensures forall i :: 0 <= i < |slots| && i != k && slots[i].Some? ==> slots[i].value.state != Running
  {
    OneKeeps(before, nextPid, k, slots[k].value);
  }

  /** The current process with its registers saved, ready again if it was running. */
  function Saved(p: Proc, regs: Frame): Proc {
    p.(frame := regs, state := if p.state == Running then Ready else p.state)
  }

  /** Saving registers and giving up the processor. */
  lemma SaveOk(slots: Slots, nextPid: nat, c: nat, q: Proc)
    requires TableOk(slots, nextPid) && c < |slots| && slots[c].Some? && |q.frame.gprs| == 15
    requires q == Saved(slots[c].value, q.frame)
    requires forall i :: 0 <= i < |slots| && i != c && slots[i].Some? ==> slots[i].value.state != Running
    ensures Replaces(slots, nextPid, c, q) && NoneRunning(slots[c := Some(q)])
    ensures Evolves(slots, nextPid, slots[c := Some(q)], nextPid)
  {
    assert WaitOk(slots, c);
    if q.state == Blocked && q.inWait {
      var j :| LiveChild(slots, j, q.waitFor, q.pid);
      assert j != c;
    }
    OneKeeps(slots, nextPid, c, q);
  }

  lemma KilledEffect(slots: Slots, slots': Slots, n: nat, q: Proc, w: Option<nat>)
    requires n < |slots| && slots[n].Some? && SameImage(slots[n].value, q) && q.state == Zombie
    requires (w.Some? ==> w.value < |slots| && slots[w.value].Some? && w.value != n)
    requires slots' == Zombified(slots, n, q, w)
    ensures KilledIn(slots, slots', n) && slots'[n] == Some(q)
  {
  }

  lemma DeathOk(slots: Slots, nextPid: nat, n: nat, q: Proc)
    requires TableOk(slots, nextPid) && n < |slots| && slots[n].Some? && q.pid == slots[n].value.pid
    requires q.parent == slots[n].value.parent
    requires q.state == Zombie && q.pid != IDLE_PID && SignalOk(q)
    ensures Dies(slots, nextPid, n, q)
  {
  }

  /** One round of the delivery loop. */
  lemma ScanStep(p: Proc, sig: nat)
    requires SignalOk(p) && !p.inSignal && p.pid != IDLE_PID && 1 <= sig < NUM_SIGS
    ensures !p.pending[sig] ==> Scan(p, sig) == Scan(p, sig + 1)
    ensures p.pending[sig] ==>
      var h, q := p.handlers[sig], Clear(p, sig);
      if h == SIG_IGN || (h == SIG_DFL && !Fatal(sig)) then SignalOk(q) && Scan(p, sig) == Scan(q, sig + 1)
      else if h == SIG_DFL then
        Scan(p, sig) == Kill(q, 128 + sig) && SignalOk(q.(state := Zombie, exitCode := 128 + sig))
      else if !StackRoom(q) then
        Scan(p, sig) == Kill(q, 128 + SIGKILL) && SignalOk(q.(state := Zombie, exitCode := 128 + SIGKILL))
      else q.frame.rsp >= SIGFRAME_SIZE && Scan(p, sig) == Call(Enter(q, sig, h), sig)
  {
  }

  lemma ScanEnd(p: Proc)
    requires SignalOk(p) && !p.inSignal && p.pid != IDLE_PID
    ensures Scan(p, NUM_SIGS) == Continue(p)
  {
  }

  /** A ready process may change its signal state. */
  lemma StayReady(slots: Slots, nextPid: nat, n: nat, q: Proc)
    requires TableOk(slots, nextPid) && n < |slots| && slots[n].Some? && q.pid == slots[n].value.pid
    requires q.parent == slots[n].value.parent
    requires q.state == Ready && SignalOk(q)
    ensures Replaces(slots, nextPid, n, q)
  {
  }

  lemma ReadyOk(slots: Slots, nextPid: nat, k: nat)
    requires TableOk(slots, nextPid) && k < |slots| && slots[k].Some?
    ensures SignalOk(slots[k].value)
  {
  }

  lemma SetRunning(slots: Slots, nextPid: nat, k: nat, q: Proc)
    requires TableOk(slots, nextPid) && k < |slots| && slots[k].Some? && q.pid == slots[k].value.pid
    requires q.parent == slots[k].value.parent
    requires q.state == Running && SignalOk(q)
    ensures Replaces(slots, nextPid, k, q)
  {
  }

  lemma Picked(trace: seq<Pick>, slots: Slots, nextPid: nat, x: Pick)
    requires TraceOk(trace) && TableOk(slots, nextPid) && x.slots == slots && Selected(slots, x.from, x.to)
    requires x.from < |slots| && x.to < |slots| && (trace != [] ==> trace[|trace| - 1].to == x.from)
    ensures TraceOk(trace + [x])
  {
  }

  // ----- Fairness -------------------------------------------------------------------------

  /** Steps round the table from slot `a` to slot `b`. */
  function Distance(a: nat, b: nat): nat
    requires a < MAX_PROCS && b < MAX_PROCS
  {
    if a <= b then b - a else b + MAX_PROCS - a
  }

  lemma AroundDistance(a: nat, b: nat, d: nat)
    requires a < MAX_PROCS && b < MAX_PROCS && d < MAX_PROCS
    ensures Around(a, Distance(a, b)) == b
    ensures Around(a, d) < MAX_PROCS && (d <= Distance(a, b) ==> Distance(Around(a, d), b) == Distance(a, b) - d)
  {
  }

  /** A runnable process that is not chosen gets strictly closer to the cursor. */
  lemma Closer(slots: Slots, a: nat, n: nat, k: nat)
    requires Selected(slots, a, n) && Runnable(slots, k) && a < MAX_PROCS && k < MAX_PROCS && a != k && n != k
    ensures n < MAX_PROCS && Distance(n, k) < Distance(a, k)
  {
    var far := Distance(a, k);
    AroundDistance(a, k, far);
    assert Runnable(slots, Around(a, far));
    var d :| 1 <= d < MAX_PROCS && n == Around(a, d) && Runnable(slots, n) &&
             forall e :: 1 <= e < d ==> !Runnable(slots, Around(a, e));
    assert d <= far;
    AroundDistance(a, k, d);
  }

  /**
    Bounded waiting: in any run, a process that stays ready in slot `k` from selection `t` on, with another
    process running before it, is not passed over 63 times.
   */
  lemma {:induction false} BoundedWaiting(trace: seq<Pick>, t: nat, m: nat, k: nat)
    requires TraceOk(trace) && t + m <= |trace| && m > 0 && k < MAX_PROCS && trace[t].from != k
    requires forall s :: t <= s < t + m ==> Runnable(trace[s].slots, k) && trace[s].to != k
    ensures m < Distance(trace[t].from, k) <= 63
    decreases m
  {
    Closer(trace[t].slots, trace[t].from, trace[t].to, k);
    if m > 1 {
      BoundedWaiting(trace, t + 1, m - 1, k);
    }
  }

  lemma InRange(slots: Slots, nextPid: nat, i: nat, q: Proc)
    requires Replaces(slots, nextPid, i, q)
    ensures i < |slots| && slots[i].Some? && q.pid == slots[i].value.pid
  {
  }

  lemma TableFacts(slots: Slots, nextPid: nat, i: nat)
    requires TableOk(slots, nextPid)
    ensures |slots| == MAX_PROCS && At(slots, IDLE_SLOT, IDLE_PID)
    ensures slots[IDLE_SLOT].value.state == Ready || slots[IDLE_SLOT].value.state == Running
    ensures i < MAX_PROCS && slots[i].Some? ==> ProcOk(slots[i].value, nextPid)
  {
  }

  lemma PidSlot(slots: Slots, nextPid: nat, s: Option<nat>, start: nat, pid: nat)
    requires TableOk(slots, nextPid) && At(slots, start, pid)
    requires (s.Some? ==> At(slots, s.value, pid)) && (s.None? ==> !Present(slots, pid))
    ensures s == Some(start)
  {
    if s.Some? {
      SamePid(slots, nextPid, s.value, start);
    } else {
      assert Present(slots, pid);
    }
  }

  // ----- What holds in every reachable state ------------------------------------------------

  /**
    While user or idle code runs, exactly one process is Running: the current one, in its own address space and
    on its own stacks.
   */
  lemma OneRunning(k: Kernel) returns (c: nat)
    requires k.Valid()
    ensures At(k.slots, c, k.current) && k.slots[c].value.state == Running
    ensures forall i :: 0 <= i < |k.slots| && k.slots[i].Some? && k.slots[i].value.state == Running ==>
      i == c && k.slots[i].value.pid == k.current
    ensures k.cr3 == k.slots[c].value.pml4 && k.rsp0 == k.kstack == k.slots[c].value.kstackTop
  {
    c :| k.InKernel(c) && k.slots[c].value.state == Running;
  }

  /** A process still blocked by waitpid waits for a child of its own that is in the table and not a zombie. */
  lemma WaiterHasChild(k: Kernel, i: nat) returns (j: nat)
    requires k.Valid() && i < |k.slots| && k.slots[i].Some? && k.slots[i].value.state == Blocked
    requires k.slots[i].value.inWait
    ensures LiveChild(k.slots, j, k.slots[i].value.waitFor, k.slots[i].value.pid)
  {
    assert WaitOk(k.slots, i);
    j :| LiveChild(k.slots, j, k.slots[i].value.waitFor, k.slots[i].value.pid);
  }

  /**
    Process numbers are distinct and below `nextPid`, `count` is the number of occupied slots, and no number is
    reaped twice.
   */
  lemma Numbers(k: Kernel, i: nat, j: nat, a: nat, b: nat)
    requires k.Valid() && i < j < |k.slots| && k.slots[i].Some? && k.slots[j].Some? && a < b < |k.reaped|
    ensures k.slots[i].value.pid != k.slots[j].value.pid && k.slots[i].value.pid < k.nextPid
    ensures k.count == |set n | 0 <= n < |k.slots| && k.slots[n].Some?|
    ensures k.reaped[a] != k.reaped[b] && !Present(k.slots, k.reaped[a])
  {
    var c: nat :| k.InKernel(c) && k.slots[c].value.state == Running;
    OccupiedIs(k.slots);
  }

  /** A process is selected at most twice with SIGKILL pending. */
  lemma KilledBySecondSelection(k: Kernel, pid: nat, t: nat, u: nat, v: nat)
    requires k.Valid() && t < u < v < |k.trace|
    ensures !(KillPick(k.trace[t], pid) && KillPick(k.trace[u], pid) && KillPick(k.trace[v], pid))
  {
    if KillPick(k.trace[t], pid) && KillPick(k.trace[u], pid) && KillPick(k.trace[v], pid) {
      KillsAt(k.trace, pid, v);
      KillsAt(k.trace[..v], pid, u);
      KillsAt(k.trace[..v][..u], pid, t);
    }
  }

  /**
    A process that was selected with SIGKILL pending and lives has entered a handler, is still inside it, and
    has not been selected so again.
   */
  lemma SurvivorInHandler(k: Kernel, i: nat, t: nat, u: nat)
    requires k.Valid() && i < |k.slots| && k.slots[i].Some? && k.slots[i].value.state != Zombie
    requires t < |k.trace| && KillPick(k.trace[t], k.slots[i].value.pid)
    ensures Spared(k.slots[i].value) && k.slots[i].value.sigframe != 0
    ensures t < u < |k.trace| ==> !KillPick(k.trace[u], k.slots[i].value.pid)
  {
    assert ProcOk(k.slots[i].value, k.nextPid);
    var pid := k.slots[i].value.pid;
    KillsAt(k.trace, pid, t);
    if t < u < |k.trace| && KillPick(k.trace[u], pid) {
      KillsAt(k.trace, pid, u);
      KillsAt(k.trace[..u], pid, t);
    }
  }

  lemma {:induction false} KillsAt(trace: seq<Pick>, pid: nat, t: nat)
    requires t < |trace|
    ensures Kills(trace, pid) >= Kills(trace[..t], pid) + if KillPick(trace[t], pid) then 1 else 0
  {
    var last := |trace| - 1;
    if t < last {
      KillsAt(trace[..last], pid, t);
      assert trace[..last][..t] == trace[..t];
    }
  }

  lemma {:induction false} IdleUnharmed(trace: seq<Pick>)
    ensures Kills(trace, IDLE_PID) == 0
  {
    if trace != [] {
      IdleUnharmed(trace[..|trace| - 1]);
    }
  }

  /** While nobody is selected the counts stay within bounds. */
  lemma KillsKept(trace: seq<Pick>, slots: Slots, nextPid: nat, slots': Slots, nextPid': nat)
    requires KillOk(trace, slots, nextPid) && TableOk(slots', nextPid') && Evolves(slots, nextPid, slots', nextPid')
    ensures KillOk(trace, slots', nextPid')
  {
    hide Kills, TableOk, Spared;
    forall i | 0 <= i < |slots'| && slots'[i].Some? && slots'[i].value.state != Zombie
      ensures Kills(trace, slots'[i].value.pid) <= if Spared(slots'[i].value) then 1 else 0
    {
      var pid := slots'[i].value.pid;
      assert At(slots', i, pid);
      if pid < nextPid {
        assert Present(slots', pid);
        var j: nat :| At(slots, j, pid);
        if Doomed(slots[j].value) {
          SameSlot(slots', nextPid', i, j, pid);
        } else {
          NotDoomed(slots[j].value);
          IdleUnharmed(trace);
        }
      }
    }
  }

  lemma SameSlot(slots: Slots, nextPid: nat, i: nat, j: nat, pid: nat)
    requires TableOk(slots, nextPid) && At(slots, i, pid) && At(slots, j, pid)
    ensures i == j
  {
    OnlySlot(slots, nextPid, i, pid);
  }

  lemma NotDoomed(p: Proc)
    requires !Doomed(p)
    ensures !Spared(p) && (p.state == Zombie ==> p.pid == IDLE_PID)
  {
  }

  /** A selection counts at most once more, and only for the process it picks. */
  lemma KillCounted(trace: seq<Pick>, slots: Slots, nextPid: nat, x: Pick)
    requires KillOk(trace, slots, nextPid) && TableOk(x.after, nextPid) && Evolves(slots, nextPid, x.after, nextPid)
    requires x.slots == slots && WentOn(x) && slots[x.to].value.state != Zombie
    requires At(x.after, x.to, slots[x.to].value.pid)
    ensures KillOk(trace + [x], x.after, nextPid)
  {
    hide TableOk, Evolves, Deliver, SignalOk;
    var trace', p, slots', k := trace + [x], slots[x.to].value, x.after, x.to;
    KillsKept(trace, slots, nextPid, slots', nextPid);
    assert trace'[..|trace|] == trace;
    if p.pid != IDLE_PID && Pends(p, SIGKILL) {
      PickedDoomed(p);
    }
    TableFacts(slots', nextPid, k);
    forall pid: nat ensures Kills(trace', pid) <= 2 && (pid >= nextPid ==> Kills(trace', pid) == 0) {
      assert Kills(trace, pid) <= 2;
      assert pid == p.pid ==> Kills(trace, pid) <= 1;
    }
    forall i | 0 <= i < |slots'| && slots'[i].Some? && slots'[i].value.state != Zombie
      ensures Kills(trace', slots'[i].value.pid) <= if Spared(slots'[i].value) then 1 else 0
    {
      if slots'[i].value.pid == p.pid {
        SameSlot(slots', nextPid, i, k, p.pid);
      }
    }
  }

  lemma PickedDoomed(p: Proc)
    requires SignalOk(p) && p.pid != IDLE_PID && Pends(p, SIGKILL)
    ensures !Deliver(p).Kill? ==> !Spared(p) && Spared(Resumed(Deliver(p).p))
  {
    hide Scan;
    KillAtSelection(p);
    DeliverKeeps(p);
    if !Deliver(p).Kill? {
      DeliveredOk(p);
    }
  }

  // ----- What waitpid and sigreturn do not do --------------------------------------------

  /** Some child that the request names is a zombie. */
  ghost predicate HasZombie(slots: Slots, pid: nat, requested: int) {
    exists k :: 0 <= k < |slots| && slots[k].Some? && Matches(slots[k].value, pid, requested)
                && slots[k].value.state == Zombie
  }

  /** The first child in slot order that the request names is a zombie. */
  ghost predicate FirstIsZombie(slots: Slots, pid: nat, requested: int) {
    exists m: nat :: FirstMatch(slots, m, pid, requested) && slots[m].value.state == Zombie
  }

  /**
    With a zombie to be had, waitpid reaps one exactly when the first child it looks at is a zombie; otherwise
    it blocks or returns 0.
   */
  lemma WaitReaps(slots: Slots, slots': Slots, c: nat, requested: int, status: nat, noHang: bool, user: Words,
                  user': Words, r: int)
    requires c < |slots| && slots[c].Some? && Waited(slots, slots', c, requested, status, noHang, user, user', r)
    requires HasZombie(slots, slots[c].value.pid, requested)
    ensures r > 0 <==> FirstIsZombie(slots, slots[c].value.pid, requested)
    ensures r == 0 <==> !FirstIsZombie(slots, slots[c].value.pid, requested)
  {
    var m: nat :| WaitedOn(slots, slots', c, m, requested, status, noHang, user, user', r);
    forall n: nat | FirstMatch(slots, n, slots[c].value.pid, requested) ensures n == m {
    }
  }

  /** A request that names one process finds it if it is a zombie. */
  lemma WaitForOne(slots: Slots, nextPid: nat, pid: nat, requested: int)
    requires TableOk(slots, nextPid) && requested != -1 && HasZombie(slots, pid, requested)
    ensures FirstIsZombie(slots, pid, requested)
  {
    var k :| 0 <= k < |slots| && slots[k].Some? && Matches(slots[k].value, pid, requested)
             && slots[k].value.state == Zombie;
    assert FirstMatch(slots, k, pid, requested);
  }

  function Plain(pid: nat, state: ProcState, parent: nat): Proc {
    Proc(pid, 0, state, 0, parent, 0, 0, false, seq(64, _ => false), seq(NUM_SIGS, _ => SIG_DFL), false, 0, 0x1000,
         Frame(seq(15, _ => 0), 0, 0x8000, 0x202))
  }

  /** Init has a live child in slot 2 and a zombie in slot 3. */
  function LiveBeforeZombie(): (slots: Slots)
    ensures |slots| == MAX_PROCS
  {
    [Some(Plain(1, Running, 0)), Some(Plain(IDLE_PID, Ready, 0)), Some(Plain(3, Ready, 1)),
     Some(Plain(4, Zombie, 1))] + seq(MAX_PROCS - 4, _ => None)
  }

  /** There, waitpid(-1) does not reap the zombie: it blocks on the live child, or returns 0. */
  lemma ZombieMissed(slots': Slots, status: nat, noHang: bool, user: Words, user': Words, r: int)
    requires Waited(LiveBeforeZombie(), slots', 0, -1, status, noHang, user, user', r)
    ensures TableOk(LiveBeforeZombie(), 5) && HasZombie(LiveBeforeZombie(), 1, -1)
    ensures r == 0 && |slots'| == MAX_PROCS && slots'[3] == LiveBeforeZombie()[3]
    ensures slots'[0].Some? && slots'[0].value.state == if noHang then Running else Blocked
  {
    var slots := LiveBeforeZombie();
    assert Matches(slots[3].value, 1, -1);
    assert FirstMatch(slots, 2, 1, -1);
    var m: nat :| WaitedOn(slots, slots', 0, m, -1, status, noHang, user, user', r);
    assert m == 2;
  }

  /**
    A pending signal is lost by sigreturn exactly when there is a saved frame and the mask saved in it lacks the
    signal.
   */
  lemma SignalLost(slots: Slots, slots': Slots, c: nat, user: Words, frame: Option<Frame>, sig: nat)
    requires c < |slots| && slots[c].Some? && SignalOk(slots[c].value) && Returned(slots, slots', c, user, frame)
    requires sig < 64 && slots[c].value.pending[sig]
    ensures At(slots', c, slots[c].value.pid)
    ensures var p := slots[c].value;
      !Pends(slots'[c].value, sig) <==> p.sigframe != 0 && !ToBits(Load(user, p.sigframe, 20)[19], 64)[sig]
  {
  }

  /**
    In terms of the handler: with its frame intact, a signal pending at sigreturn survives exactly if it was
    pending, besides the one delivered, when the handler was entered.
   */
  lemma SurvivesHandler(p: Proc, q: Proc, user: Words, sig: nat)
    requires SignalOk(p) && Deliver(p).Call? && |q.pending| == 64 && sig < 64 && q.pending[sig]
    requires |Deliver(p).p.pending| == 64
    requires Load(user, Deliver(p).p.sigframe, 20) == SavedWords(p.(pending := Deliver(p).p.pending), Deliver(p).sig)
    ensures Sigreturn(q, Load(user, Deliver(p).p.sigframe, 20)).pending[sig] <==> Deliver(p).p.pending[sig]
  {
    hide Deliver, Load, SignalOk;
    MaskRoundTrip(Deliver(p).p.pending);
  }

  /**
    SIGKILL is not lost: a process that has it pending is terminated at the gate, so its sigreturn is never
    reached.
   */
  lemma KillNotLost(slots: Slots, gated: Slots, c: nat)
    requires c < |slots| && slots[c].Some? && SignalOk(slots[c].value) && slots[c].value.pid != IDLE_PID
    requires slots[c].value.pending[SIGKILL]
    requires Gated(slots, gated, c, GateOf(slots[c].value))
    ensures !GateOf(slots[c].value).Pass? && At(gated, c, slots[c].value.pid) && gated[c].value.state == Zombie
  {
    KillAtGate(slots[c].value);
  }

  /** Init, about to enter its handler for SIGUSR1. */
  function Interrupted(): Proc {
    var p := Plain(1, Ready, 0);
    p.(pending := p.pending[SIGUSR1 := true], handlers := p.handlers[SIGUSR1 := 0x4000])
  }

  lemma EntersHandler()
    ensures SignalOk(Interrupted()) && Deliver(Interrupted()).Call? && Deliver(Interrupted()).sig == SIGUSR1
    ensures |Deliver(Interrupted()).p.pending| == 64 && Quiet(Deliver(Interrupted()).p.pending)
    ensures Deliver(Interrupted()).p.sigframe != 0 && Interrupted().pid == 1 && Interrupted().pml4 == 0
  {
    var p := Interrupted();
    assert !Quiet(p.pending);
    ScanSkips(p, SIGUSR1);
    assert p.pending[SIGUSR1];
  }

  /** Init with that handler running, beside the idle process. */
  function HandlerRuns(): (slots: Slots)
    ensures |slots| == MAX_PROCS
  {
    EntersHandler();
    [Some(Resumed(Deliver(Interrupted()).p)), Some(Plain(IDLE_PID, Ready, 0))] + seq(MAX_PROCS - 2, _ => None)
  }

  lemma HandlerRunsOk()
    ensures TableOk(HandlerRuns(), 3)
    ensures SignalOk(Interrupted()) && HandlerRuns()[0] == Some(Resumed(Deliver(Interrupted()).p))
    ensures |Interrupted().handlers| == NUM_SIGS && Interrupted().handlers[SIGINT] == SIG_DFL
  {
    EntersHandler();
    DeliveredOk(Interrupted());
    hide Deliver;
  }

  /**
    SIGINT, which by default is fatal, sent to init while that handler runs: it is pending, the gate lets
    sigreturn through, and afterwards it is gone.
   */
  lemma InterruptLost() returns (sent: Slots, after: Slots, user: Words, frame: Option<Frame>)
    ensures TableOk(HandlerRuns(), 3) && At(HandlerRuns(), 0, 1)
    ensures Fatal(SIGINT) && |HandlerRuns()[0].value.handlers| == NUM_SIGS
    ensures HandlerRuns()[0].value.handlers[SIGINT] == SIG_DFL
    ensures user == Space(WithSavedFrame(map[], Interrupted()), 0)
    ensures Sent(HandlerRuns(), sent, 1, SIGINT, Some(0)) && At(sent, 0, 1) && Pends(sent[0].value, SIGINT)
    ensures SignalOk(sent[0].value) && GateOf(sent[0].value) == Pass(sent[0].value)
    ensures Returned(sent, after, 0, user, frame) && At(after, 0, 1) && !Pends(after[0].value, SIGINT)
  {
    hide Deliver, Load, Interrupted, Sigreturn, SavedWords, WithSavedFrame, Space, ToBits, TableOk, HandlerRuns;
    HandlerRunsOk();
    EntersHandler();
    var slots, p := HandlerRuns(), Interrupted();
    DeliverKeeps(p);
    DeliveredOk(p);
    var q := Resumed(Deliver(p).p);
    var raised := Raised(q, SIGINT);
    sent := slots[0 := Some(raised)];
    assert SentTo(slots, sent, 0, 1, SIGINT, 0);
    user := Space(WithSavedFrame(map[], p), 0);
    SavedIntact(map[], p);
    SurvivesHandler(p, raised, user, SIGINT);
    var back := Sigreturn(raised, Load(user, raised.sigframe, 20));
    SameProcess(raised, Load(user, raised.sigframe, 20));
    after := sent[0 := Some(back.(frame := raised.frame))];
    frame := Some(back.frame);
  }

  /** Delivery leaves the saved words at the new stack pointer. */
  lemma SavedIntact(mem: map<nat, Words>, p: Proc)
    requires SignalOk(p) && Deliver(p).Call?
    ensures Load(Space(WithSavedFrame(mem, p), p.pml4), Deliver(p).p.sigframe, 20) ==
      SavedWords(p.(pending := Deliver(p).p.pending), Deliver(p).sig)
  {
    hide Deliver, Load, SavedWords;
    LoadStored(Space(mem, p.pml4), Deliver(p).p.sigframe,
               SavedWords(p.(pending := Deliver(p).p.pending), Deliver(p).sig));
  }

  /**
    What a handler finds on its stack: from its stack pointer up, the fifteen registers, the flags, the stack pointer
    and the instruction pointer it interrupted, its signal, and the signals still pending.
   */
  lemma FrameLayout(mem: map<nat, Words>, p: Proc)
    requires SignalOk(p) && Deliver(p).Call?
    ensures var user, sp := Space(WithSavedFrame(mem, p), p.pml4), Deliver(p).p.frame.rsp;
      && (forall i :: 0 <= i < 15 ==> Load(user, sp, 20)[i] == p.frame.gprs[i])
      && Load(user, sp, 20)[15..] ==
         [p.frame.rflags, p.frame.rsp, p.frame.rip, Deliver(p).sig, ToWord(Deliver(p).p.pending)]
  {
    hide Load, Space, WithSavedFrame, ToWord;
    SavedIntact(mem, p);
    CallStack(p);
  }

  lemma CallStack(p: Proc)
    requires SignalOk(p) && Deliver(p).Call?
    ensures Deliver(p).p.frame.rsp == Deliver(p).p.sigframe
  {
    hide Deliver, Effective, DealtWith;
    if p.pid == IDLE_PID || p.inSignal {
      DeliverInHandler(p);
    } else {
      var first := LowestEffective(p, 1);
      DeliverActs(p, first);
    }
  }

  lemma SameProcess(p: Proc, w: seq<nat>)
    requires |w| == 20
    ensures Sigreturn(p, w).pid == p.pid && |Sigreturn(p, w).pending| == 64 && Sigreturn(p, w).state == p.state
  {
  }
}
