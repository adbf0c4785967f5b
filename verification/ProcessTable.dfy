/**
  The process table (process.rs) as values: 64 slots, the idle process in slot 1, and what every
  step of the scheduler and of the process system calls keeps.
 */
module ProcessTable {
  import opened Prelude
  import opened Signals

  const MAX_PROCS: nat := 64
  const IDLE_SLOT: nat := 1

  type Slots = seq<Option<Proc>>

  /** Process `pid` is in slot `i`. */
  predicate At(slots: Slots, i: nat, pid: nat) {
    i < |slots| && slots[i].Some? && slots[i].value.pid == pid
  }

  ghost predicate Present(slots: Slots, pid: nat) {
    exists i :: At(slots, i, pid)
  }

  /** Slot `j` holds child `pid` of `parent`, not yet a zombie. */
  predicate LiveChild(slots: Slots, j: nat, pid: nat, parent: nat) {
    At(slots, j, pid) && slots[j].value.parent == parent && slots[j].value.state != Zombie
  }

  /** A process still blocked by waitpid waits for a child that is in the table and not a zombie. */
  ghost predicate WaitOk(slots: Slots, i: nat)
    requires i < |slots|
  {
    slots[i].Some? && slots[i].value.state == Blocked && slots[i].value.inWait ==>
      exists j :: LiveChild(slots, j, slots[i].value.waitFor, slots[i].value.pid)
  }

  /** One process: numbered below `nextPid`, above its parent, and in order as to signals. */
  predicate ProcOk(p: Proc, nextPid: nat) {
    p.parent < p.pid < nextPid && SignalOk(p)
  }

  ghost predicate TableOk(slots: Slots, nextPid: nat) {
    && |slots| == MAX_PROCS
    && (forall i :: 0 <= i < MAX_PROCS && slots[i].Some? ==> ProcOk(slots[i].value, nextPid))
    && (forall i, j :: 0 <= i < j < MAX_PROCS && slots[i].Some? && slots[j].Some? ==>
          slots[i].value.pid != slots[j].value.pid)
    && (forall i :: 0 <= i < MAX_PROCS ==> WaitOk(slots, i))
    && At(slots, IDLE_SLOT, IDLE_PID) && slots[IDLE_SLOT].value.parent == 0
    && (slots[IDLE_SLOT].value.state == Ready || slots[IDLE_SLOT].value.state == Running)
  }

  function Occupied(slots: Slots): nat {
    if slots == [] then 0 else (if slots[0].Some? then 1 else 0) + Occupied(slots[1..])
  }

  lemma OccupiedIs(slots: Slots)
    ensures Occupied(slots) == |set n | 0 <= n < |slots| && slots[n].Some?|
  {
    OccupiedFrom(slots, 0);
    assert slots[0..] == slots;
  }

  lemma {:induction false} OccupiedFrom(slots: Slots, k: nat)
    requires k <= |slots|
    ensures Occupied(slots[k..]) == |set n | k <= n < |slots| && slots[n].Some?|
    decreases |slots| - k
  {
    var taken := set n | k <= n < |slots| && slots[n].Some?;
    if k == |slots| {
      assert taken == {};
    } else {
      OccupiedFrom(slots, k + 1);
      var rest := set n | k + 1 <= n < |slots| && slots[n].Some?;
      assert slots[k..][1..] == slots[k + 1..];
      assert taken == (if slots[k].Some? then {k} else {}) + rest;
    }
  }

  /** Processes not yet zombies. */
  function Alive(slots: Slots): nat {
    if slots == [] then 0 else (if slots[0].Some? && slots[0].value.state != Zombie then 1 else 0) + Alive(slots[1..])
  }

  /** Every reaped process number is recorded once, was handed out, and is gone from the table. */
  ghost predicate ReapedOk(slots: Slots, nextPid: nat, reaped: seq<nat>) {
    && (forall a, b :: 0 <= a < b < |reaped| ==> reaped[a] != reaped[b])
    && (forall a :: 0 <= a < |reaped| ==> reaped[a] < nextPid && !Present(slots, reaped[a]))
  }

  lemma SamePid(slots: Slots, nextPid: nat, i: nat, j: nat)
    requires TableOk(slots, nextPid) && i < MAX_PROCS && j < MAX_PROCS && slots[i].Some? && slots[j].Some?
    requires slots[i].value.pid == slots[j].value.pid
    ensures i == j
  {
  }

  // ----- Replacing one process ------------------------------------------------------

  /** Process `q` may replace the one in slot `i`. */
  ghost predicate Replaces(slots: Slots, nextPid: nat, i: nat, q: Proc) {
    && i < |slots| && slots[i].Some? && q.pid == slots[i].value.pid && q.parent == slots[i].value.parent
    && ProcOk(q, nextPid)
    && (q.state == Blocked && q.inWait ==> exists j :: j != i && LiveChild(slots, j, q.waitFor, q.pid))
    && (q.state == Zombie ==> slots[i].value.state == Zombie || NoWaiter(slots, q.pid))
    && (i == IDLE_SLOT ==> q.state == Ready || q.state == Running)
  }

  /** Nobody is blocked in waitpid on `pid`. */
  ghost predicate NoWaiter(slots: Slots, pid: nat) {
    forall i ::
      0 <= i < |slots| && slots[i].Some? && slots[i].value.state == Blocked && slots[i].value.inWait ==>
        slots[i].value.waitFor != pid
  }

  lemma ReplaceOk(slots: Slots, nextPid: nat, i: nat, q: Proc)
    requires TableOk(slots, nextPid) && Replaces(slots, nextPid, i, q)
    ensures TableOk(slots[i := Some(q)], nextPid)
  {
    hide ProcOk;
    var slots' := slots[i := Some(q)];
    forall k | 0 <= k < MAX_PROCS ensures WaitOk(slots', k) {
      assert WaitOk(slots, k);
      if slots'[k].Some? && slots'[k].value.state == Blocked && slots'[k].value.inWait {
        var w := slots'[k].value;
        if k == i {
          var j :| j != i && LiveChild(slots, j, w.waitFor, w.pid);
          assert LiveChild(slots', j, w.waitFor, w.pid);
        } else {
          var j :| LiveChild(slots, j, w.waitFor, w.pid);
          assert LiveChild(slots', j, w.waitFor, w.pid);
        }
      }
    }
  }

  /** Replacing a process moves none: the same numbers are present, and the table is as full. */
  lemma ReplaceCounts(slots: Slots, nextPid: nat, reaped: seq<nat>, i: nat, q: Proc)
    requires i < |slots| && slots[i].Some? && q.pid == slots[i].value.pid && ReapedOk(slots, nextPid, reaped)
    ensures ReapedOk(slots[i := Some(q)], nextPid, reaped) && Occupied(slots[i := Some(q)]) == Occupied(slots)
    ensures forall pid: nat :: Present(slots[i := Some(q)], pid) == Present(slots, pid)
  {
    var slots' := slots[i := Some(q)];
    forall pid: nat ensures Present(slots', pid) == Present(slots, pid) {
      if Present(slots, pid) {
        var j :| At(slots, j, pid);
        assert At(slots', j, pid);
      }
      if Present(slots', pid) {
        var j :| At(slots', j, pid);
        assert At(slots, j, pid);
      }
    }
    OccupiedUpdate(slots, i, Some(q));
  }

  lemma {:induction false} OccupiedUpdate(slots: Slots, i: nat, e: Option<Proc>)
    requires i < |slots|
    ensures Occupied(slots[i := e]) == Occupied(slots) - (if slots[i].Some? then 1 else 0) + (if e.Some? then 1 else 0)
  {
    if i > 0 {
      OccupiedUpdate(slots[1..], i - 1, e);
      assert slots[i := e][1..] == slots[1..][i - 1 := e];
    } else {
      assert slots[i := e][1..] == slots[1..];
    }
  }

  lemma {:induction false} AliveUpdate(slots: Slots, i: nat, q: Proc)
    requires i < |slots| && slots[i].Some?
    ensures Alive(slots[i := Some(q)]) ==
      Alive(slots) - (if slots[i].value.state != Zombie then 1 else 0) + (if q.state != Zombie then 1 else 0)
  {
    if i > 0 {
      AliveUpdate(slots[1..], i - 1, q);
      assert slots[i := Some(q)][1..] == slots[1..][i - 1 := Some(q)];
    } else {
      assert slots[i := Some(q)][1..] == slots[1..];
    }
  }

  // ----- Becoming a zombie ------------------------------------------------------------

  /** The saved result register set to zero. */
  function ZeroResult(f: Frame): Frame {
    if f.gprs == [] then f else f.(gprs := f.gprs[0 := 0])
  }

  /** A blocked process made ready, to resume with the result 0. */
  function Awoken(p: Proc): Proc {
    p.(state := Ready, waitFor := 0, inWait := false, frame := ZeroResult(p.frame))
  }

  /** A parent blocked in waitpid on `pid` is made ready. */
  function Woken(p: Proc, pid: nat): Proc {
    if p.state == Blocked && p.waitFor == pid then Awoken(p) else p
  }

  /** Only a process blocked on `pid` is woken: it is ready, waits for nobody, and resumes with the result 0. */
  lemma WokenIs(p: Proc, pid: nat)
    requires |p.frame.gprs| == 15
    ensures p.state != Blocked || p.waitFor != pid ==> Woken(p, pid) == p
    ensures p.state == Blocked && p.waitFor == pid ==>
      var q := Woken(p, pid);
      && q.state == Ready && q.waitFor == 0 && !q.inWait && q.frame == p.frame.(gprs := p.frame.gprs[0 := 0])
      && q == p.(state := q.state, waitFor := q.waitFor, inWait := q.inWait, frame := q.frame)
  {
  }

  /** After the parent in slot `w` of `pid` was woken, nobody waits for `pid`. */
  lemma WakeClears(slots: Slots, nextPid: nat, i: nat, w: nat)
    requires TableOk(slots, nextPid) && i < MAX_PROCS && slots[i].Some? && At(slots, w, slots[i].value.parent)
    ensures NoWaiter(slots[w := Some(Woken(slots[w].value, slots[i].value.pid))], slots[i].value.pid)
    ensures Replaces(slots, nextPid, w, Woken(slots[w].value, slots[i].value.pid)) && w != i
  {
    var pid := slots[i].value.pid;
    var slots' := slots[w := Some(Woken(slots[w].value, pid))];
    forall k | 0 <= k < |slots'| && slots'[k].Some? && slots'[k].value.state == Blocked && slots'[k].value.inWait
      ensures slots'[k].value.waitFor != pid
    {
      assert WaitOk(slots, k);
      if k != w && slots[k].value.waitFor == pid {
        var j :| LiveChild(slots, j, pid, slots[k].value.pid);
        SamePid(slots, nextPid, i, j);
        assert false;
      }
    }
    WokenStays(slots, nextPid, w, pid);
  }

  lemma WokenStays(slots: Slots, nextPid: nat, w: nat, pid: nat)
    requires TableOk(slots, nextPid) && w < MAX_PROCS && slots[w].Some?
    ensures Replaces(slots, nextPid, w, Woken(slots[w].value, pid))
  {
    var p := slots[w].value;
    assert WaitOk(slots, w);
    if p.state == Blocked && p.inWait {
      var j :| LiveChild(slots, j, p.waitFor, p.pid);
      assert j != w;
    }
  }

  /** Without a parent in the table nobody waits. */
  lemma NobodyWaits(slots: Slots, nextPid: nat, i: nat)
    requires TableOk(slots, nextPid) && i < MAX_PROCS && slots[i].Some? && !Present(slots, slots[i].value.parent)
    ensures NoWaiter(slots, slots[i].value.pid)
  {
    var pid := slots[i].value.pid;
    forall k | 0 <= k < |slots| && slots[k].Some? && slots[k].value.state == Blocked && slots[k].value.inWait
      ensures slots[k].value.waitFor != pid
    {
      assert WaitOk(slots, k);
      if slots[k].value.waitFor == pid {
        var j :| LiveChild(slots, j, pid, slots[k].value.pid);
        SamePid(slots, nextPid, i, j);
        assert At(slots, k, slots[i].value.parent);
        assert false;
      }
    }
  }

  /** The table once the process in slot `i` is the zombie `q` and its parent, in slot `w`, was woken if it waited. */
  function Zombified(slots: Slots, i: nat, q: Proc, w: Option<nat>): Slots
    requires i < |slots| && (w.Some? ==> w.value < |slots| && slots[w.value].Some? && w.value != i)
  {
    var slots1 := slots[i := Some(q)];
    if w.None? then slots1 else slots1[w.value := Some(Woken(slots[w.value].value, q.pid))]
  }

  /** Slot `w` is where the parent of the process in slot `i` is, if anywhere. */
  ghost predicate ParentAt(slots: Slots, i: nat, w: Option<nat>)
    requires i < |slots| && slots[i].Some?
  {
    if w.Some? then At(slots, w.value, slots[i].value.parent) else !Present(slots, slots[i].value.parent)
  }

  /** `q` is the process in slot `i` as a zombie. */
  ghost predicate Dies(slots: Slots, nextPid: nat, i: nat, q: Proc) {
    && i < |slots| && slots[i].Some? && i != IDLE_SLOT && q.state == Zombie
    && q.pid == slots[i].value.pid && q.parent == slots[i].value.parent && ProcOk(q, nextPid)
  }

  lemma ZombieOk(slots: Slots, nextPid: nat, reaped: seq<nat>, i: nat, q: Proc, w: Option<nat>)
    requires TableOk(slots, nextPid) && ReapedOk(slots, nextPid, reaped) && Dies(slots, nextPid, i, q)
    requires ParentAt(slots, i, w)
    ensures w.Some? ==> w.value < |slots| && slots[w.value].Some? && w.value != i
    ensures var slots' := Zombified(slots, i, q, w);
      && TableOk(slots', nextPid) && ReapedOk(slots', nextPid, reaped) && Occupied(slots') == Occupied(slots)
      && Alive(slots') == Alive(slots) - (if slots[i].value.state != Zombie then 1 else 0)
  {
    hide TableOk, ReapedOk, ProcOk, Occupied, Alive, NoWaiter;
    TableLength(slots, nextPid);
    if w.None? {
      NobodyWaits(slots, nextPid, i);
      ReplaceOk(slots, nextPid, i, q);
      ReplaceCounts(slots, nextPid, reaped, i, q);
      AliveUpdate(slots, i, q);
    } else {
      var v := w.value;
      var p' := Woken(slots[v].value, q.pid);
      var slots1 := slots[v := Some(p')];
      WakeClears(slots, nextPid, i, v);
      ReplaceOk(slots, nextPid, v, p');
      ReplaceCounts(slots, nextPid, reaped, v, p');
      AliveUpdate(slots, v, p');
      ReplaceOk(slots1, nextPid, i, q);
      ReplaceCounts(slots1, nextPid, reaped, i, q);
      AliveUpdate(slots1, i, q);
      assert slots1[i := Some(q)] == Zombified(slots, i, q, w);
    }
  }

  lemma TableLength(slots: Slots, nextPid: nat)
    requires TableOk(slots, nextPid)
    ensures |slots| == MAX_PROCS
  {
  }

  // ----- What no step undoes ----------------------------------------------------------

  /** The process in slot `i` is a zombie or has SIGKILL pending. */
  predicate Doomed(p: Proc) {
    p.pid != IDLE_PID && (p.state == Zombie || (|p.pending| == 64 && p.pending[SIGKILL]))
  }

  /** Inside a handler with SIGKILL pending: the next selection is the last. */
  predicate Spared(p: Proc) {
    p.pid != IDLE_PID && p.inSignal && |p.pending| == 64 && p.pending[SIGKILL]
  }

  /** `q` is a later state of `p` that has not escaped its fate. */
  predicate FateKept(p: Proc, q: Proc) {
    && q.pid == p.pid && (p.state == Zombie ==> q.state == Zombie) && (Doomed(p) ==> Doomed(q))
    && (Spared(p) && q.state != Zombie ==> Spared(q))
  }

  /**
    From one table to a later one: numbers of processes that are gone do not come back, and a doomed
    process is still doomed, in the same slot, or gone.
   */
  ghost predicate Evolves(slots: Slots, nextPid: nat, slots': Slots, nextPid': nat) {
    && nextPid <= nextPid' && |slots'| == |slots|
    && (forall pid: nat :: pid < nextPid && !Present(slots, pid) ==> !Present(slots', pid))
    && (forall i :: 0 <= i < |slots| && slots[i].Some? && Doomed(slots[i].value) ==>
          if At(slots', i, slots[i].value.pid) then FateKept(slots[i].value, slots'[i].value)
          else !Present(slots', slots[i].value.pid))
  }

  lemma EvolvesTrans(s0: Slots, n0: nat, s1: Slots, n1: nat, s2: Slots, n2: nat)
    requires Evolves(s0, n0, s1, n1) && Evolves(s1, n1, s2, n2)
    requires forall i :: 0 <= i < |s0| && s0[i].Some? ==> s0[i].value.pid < n0
    ensures Evolves(s0, n0, s2, n2)
  {
    forall i | 0 <= i < |s0| && s0[i].Some? && Doomed(s0[i].value)
      ensures if At(s2, i, s0[i].value.pid) then FateKept(s0[i].value, s2[i].value) else !Present(s2, s0[i].value.pid)
    {
      var pid := s0[i].value.pid;
      if At(s1, i, pid) {
        assert FateKept(s0[i].value, s1[i].value);
      } else {
        assert !Present(s1, pid) && !Present(s2, pid);
      }
    }
  }

  lemma EvolvesRefl(slots: Slots, nextPid: nat)
    ensures Evolves(slots, nextPid, slots, nextPid)
  {
  }

  /** Slot by slot later states of the same processes. */
  lemma EvolvesSlots(slots: Slots, slots': Slots, nextPid: nat)
    requires |slots'| == |slots|
    requires forall i :: 0 <= i < |slots| ==>
      slots'[i].Some? == slots[i].Some? && (slots[i].Some? ==> FateKept(slots[i].value, slots'[i].value))
    ensures Evolves(slots, nextPid, slots', nextPid)
  {
    forall pid: nat | !Present(slots, pid) ensures !Present(slots', pid) {
      if Present(slots', pid) {
        var j :| At(slots', j, pid);
        assert At(slots, j, pid);
        assert false;
      }
    }
  }
}
