/**
  What becomes of a process's registers between the moment it gives up the processor and the moment it is selected
  again, over any run.
 */
module Registers {
  import opened Prelude
  import opened Signals
  import opened ProcessTable

  /** One selection: the table, the slot of the process that ran before, the slot chosen, and the table it leads to. */
  datatype Pick = Pick(slots: Slots, from: nat, to: nat, after: Slots)

  /** `q` is `p` some time later, not selected since: the same registers, but for the result if it was blocked. */
  predicate RegsKept(p: Proc, q: Proc) {
    && (q.frame == p.frame || (p.state == Blocked && q.frame == ZeroResult(p.frame)))
    && (q.state == Blocked ==> p.state == Blocked)
  }

  lemma RegsTrans(p: Proc, q: Proc, r: Proc)
    requires RegsKept(p, q) && RegsKept(q, r)
    ensures RegsKept(p, r)
  {
  }

  /** Every process but the one in slot `c` has kept its registers, or is new. */
  ghost predicate OthersWait(slots: Slots, slots': Slots, nextPid: nat, c: nat) {
    && |slots'| == |slots|
    && forall i :: 0 <= i < |slots| && i != c && slots'[i].Some? ==>
         || slots'[i].value.pid >= nextPid
         || (At(slots, i, slots'[i].value.pid) && RegsKept(slots[i].value, slots'[i].value))
  }

  lemma WaitTrans(a: Slots, b: Slots, d: Slots, nextPid: nat, nextPid': nat, c: nat)
    requires OthersWait(a, b, nextPid, c) && OthersWait(b, d, nextPid', c) && nextPid <= nextPid'
    ensures OthersWait(a, d, nextPid, c)
  {
    forall i | 0 <= i < |a| && i != c && d[i].Some? && d[i].value.pid < nextPid
      ensures At(a, i, d[i].value.pid) && RegsKept(a[i].value, d[i].value)
    {
      RegsTrans(a[i].value, b[i].value, d[i].value);
    }
  }

  lemma WaitRefl(slots: Slots, nextPid: nat, c: nat)
    ensures OthersWait(slots, slots, nextPid, c)
  {
  }

  /** Slot `j` is not chosen by the selections from `t` up to `u`. */
  ghost predicate Passed(trace: seq<Pick>, t: nat, u: nat, j: nat) {
    forall s :: t <= s < u && s < |trace| ==> trace[s].to != j
  }

  /** If slot `j` holds the same process in both tables, it has kept its registers. */
  predicate Undisturbed(a: Slots, b: Slots, j: nat) {
    j < |a| && j < |b| && a[j].Some? && b[j].Some? && a[j].value.pid == b[j].value.pid ==>
      RegsKept(a[j].value, b[j].value)
  }

  /** The chosen process goes on after delivery, or dies of a signal with its exit code. */
  ghost predicate WentOn(x: Pick) {
    && x.to < |x.slots| && x.slots[x.to].Some? && SignalOk(x.slots[x.to].value)
    && x.to < |x.after|
    && var o := Deliver(x.slots[x.to].value);
       x.after[x.to] == Some(if o.Kill? then o.p.(state := Zombie, exitCode := o.code) else Resumed(o.p))
  }

  predicate PidsBelow(slots: Slots, nextPid: nat) {
    forall i :: 0 <= i < |slots| && slots[i].Some? ==> slots[i].value.pid < nextPid
  }

  /** Whoever has not been selected since a selection has the registers it had then. */
  ghost predicate FrameOk(trace: seq<Pick>, slots: Slots, nextPid: nat) {
    && (forall t :: 0 <= t < |trace| ==> WentOn(trace[t]) && PidsBelow(trace[t].slots, nextPid))
    && (forall t, j: nat :: 0 <= t < |trace| && Passed(trace, t, |trace|, j) ==> Undisturbed(trace[t].slots, slots, j))
    && (forall t, u, j: nat :: 0 <= t < u < |trace| && Passed(trace, t, u, j) ==>
          Undisturbed(trace[t].slots, trace[u].slots, j))
  }

  /** While nobody is selected, and only the current process in slot `c` changes. */
  lemma FramesKept(trace: seq<Pick>, slots: Slots, nextPid: nat, slots': Slots, nextPid': nat, c: nat)
    requires FrameOk(trace, slots, nextPid) && OthersWait(slots, slots', nextPid, c) && nextPid <= nextPid'
    requires trace != [] ==> trace[|trace| - 1].to == c
    ensures FrameOk(trace, slots', nextPid')
  {
    hide RegsKept, WentOn;
    forall t, j: nat | 0 <= t < |trace| && Passed(trace, t, |trace|, j)
      ensures Undisturbed(trace[t].slots, slots', j)
    {
      var a := trace[t].slots;
      assert Undisturbed(a, slots, j) && j != c;
      if j < |a| && j < |slots'| && a[j].Some? && slots'[j].Some? && a[j].value.pid == slots'[j].value.pid {
        assert a[j].value.pid < nextPid;
        RegsTrans(a[j].value, slots[j].value, slots'[j].value);
      }
    }
  }

  /** A selection. */
  lemma FramesPicked(trace: seq<Pick>, slots: Slots, nextPid: nat, x: Pick)
    requires FrameOk(trace, slots, nextPid) && x.slots == slots && WentOn(x) && PidsBelow(slots, nextPid)
    requires OthersWait(slots, x.after, nextPid, x.to)
    ensures FrameOk(trace + [x], x.after, nextPid)
  {
    hide RegsKept, WentOn, Undisturbed;
    var trace', n := trace + [x], |trace|;
    forall t, j: nat | 0 <= t < |trace'| && Passed(trace', t, |trace'|, j)
      ensures Undisturbed(trace'[t].slots, x.after, j)
    {
      assert trace'[n].to != j;
      if t < n {
        PassedPrefix(trace, x, t, n, j);
        assert Undisturbed(trace[t].slots, slots, j);
      } else {
        SelfUndisturbed(slots, j);
      }
      UndisturbedOn(trace'[t].slots, slots, x.after, nextPid, x.to, j);
    }
    forall t, u, j: nat | 0 <= t < u < |trace'| && Passed(trace', t, u, j)
      ensures Undisturbed(trace'[t].slots, trace'[u].slots, j)
    {
      PassedPrefix(trace, x, t, u, j);
    }
  }

  lemma PassedPrefix(trace: seq<Pick>, x: Pick, t: nat, u: nat, j: nat)
    requires u <= |trace| && (Passed(trace + [x], t, u, j) || Passed(trace + [x], t, |trace| + 1, j))
    ensures Passed(trace, t, u, j)
  {
    var trace' := trace + [x];
    forall s | t <= s < u ensures trace[s].to != j {
      assert trace'[s] == trace[s];
    }
  }

  lemma SelfUndisturbed(slots: Slots, j: nat)
    ensures Undisturbed(slots, slots, j)
  {
  }

  lemma UndisturbedOn(a: Slots, b: Slots, d: Slots, nextPid: nat, c: nat, j: nat)
    requires Undisturbed(a, b, j) && OthersWait(b, d, nextPid, c) && PidsBelow(a, nextPid) && j != c
    ensures Undisturbed(a, d, j)
  {
    hide RegsKept;
    if j < |a| && j < |d| && a[j].Some? && d[j].Some? && a[j].value.pid == d[j].value.pid {
      RegsTrans(a[j].value, b[j].value, d[j].value);
    }
  }

  /**
    Whoever gave up the processor in slot `j` and is selected again, with nothing effective pending or inside a handler
    without SIGKILL, runs with exactly the registers it had, unless it had blocked with a result other than 0.
   */
  lemma RunsOnAsBefore(trace: seq<Pick>, slots: Slots, nextPid: nat, t: nat, u: nat, j: nat)
    requires FrameOk(trace, slots, nextPid) && t < u < |trace| && Passed(trace, t, u, j) && trace[u].to == j
    requires j < |trace[t].slots| && trace[t].slots[j].Some? && At(trace[u].slots, j, trace[t].slots[j].value.pid)
    requires WentOn(trace[u]) && Deliver(trace[u].slots[j].value).Continue?
    ensures var p := trace[t].slots[j].value;
      && At(trace[u].after, j, p.pid) && trace[u].after[j].value.state == Running
      && (p.state != Blocked || ZeroResult(p.frame) == p.frame ==> trace[u].after[j].value.frame == p.frame)
      && trace[u].after[j].value.frame in {p.frame, ZeroResult(p.frame)}
  {
    hide Scan;
    assert Undisturbed(trace[t].slots, trace[u].slots, j);
    GoesOn(trace[u].slots[j].value);
  }

  lemma GoesOn(p: Proc)
    requires SignalOk(p) && Deliver(p).Continue?
    ensures Deliver(p).p.frame == p.frame && Deliver(p).p.pid == p.pid
  {
    hide Scan;
  }
}
