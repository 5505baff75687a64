/** The driver manager as interleaved steps: one manager, its slot table, any number of driver
    processes, their timers and the clock. */
module DriverManager {
  import opened DriverCell

  const MAX_DRIVERS := 32
  const MIN_TASK_TIME := 1
  const MAX_TASK_TIME := 3600

  datatype Manager =
    | Idle
    | Forked(i: nat, pid: nat)        // child running, slot not yet written
    | PidRecorded(i: nat, pid: nat)
    | Activated(i: nat, pid: nat)
    | Sending(i: nat, time: int)      // checks passed, mutex not yet taken
    | Storing(i: nat, time: int)      // holds the mutex
    | Notifying(i: nat, time: int)    // mutex released, eventfd not yet written

  /** `procs` holds every child ever forked: none is reaped before the manager terminates. */
  datatype State = State(now: nat, slots: seq<Slot>, procs: map<nat, Proc>, mgr: Manager)

  datatype Step =
    | Pass(later: nat)
    | Look(pid: nat) | DriverMove(pid: nat, m: Move)
    | Fork(pid: nat) | RecordPid | Activate | FinishCreate
    | SendTask(pid: nat, time: int) | LockToStore | Store | Notify

  function Untouched(): Slot {
    Slot(0, false, Available, 0, 0, false, Free, [])
  }

  predicate Init(s: State) {
    && |s.slots| == MAX_DRIVERS && (forall i :: 0 <= i < MAX_DRIVERS ==> s.slots[i] == Untouched())
    && s.procs == map[] && s.mgr == Idle
  }

  // ---------- searching the table ----------

  predicate Matches(t: Slot, pid: nat) {
    t.active && t.pid == pid
  }

  /** The first active slot with this pid, or the length of the table. */
  function FirstMatch(slots: seq<Slot>, pid: nat): (i: nat)
    ensures i <= |slots|
    ensures i < |slots| ==> Matches(slots[i], pid)
    ensures forall k :: 0 <= k < i ==> !Matches(slots[k], pid)
  {
    if slots == [] || Matches(slots[0], pid) then 0 else 1 + FirstMatch(slots[1..], pid)
  }

  function FirstFree(slots: seq<Slot>): (i: nat)
    ensures i <= |slots|
    ensures i < |slots| ==> !slots[i].active
    ensures forall k :: 0 <= k < i ==> slots[k].active
  {
    if slots == [] || !slots[0].active then 0 else 1 + FirstFree(slots[1..])
  }

  method FindSlot(slots: seq<Slot>, pid: int) returns (idx: int)
    ensures idx == -1 <==> pid <= 0 || forall k :: 0 <= k < |slots| ==> !Matches(slots[k], pid)
    ensures idx != -1 ==> 0 <= idx < |slots| && pid > 0 && idx == FirstMatch(slots, pid)
  {
    if pid <= 0 { return -1; }
    for i := 0 to |slots|
      invariant forall k :: 0 <= k < i ==> !Matches(slots[k], pid)
    {
      if slots[i].active && slots[i].pid == pid { return i; }
    }
    return -1;
  }

  // ---------- steps ----------

  predicate Running(pc: DriverPc) {
    pc != Born && pc != Exited
  }

  ghost predicate Enabled(s: State, a: Step) {
    match a
    case Pass(later) => s.now <= later
    case Look(pid) => pid in s.procs && s.procs[pid].pc == Born
    case DriverMove(pid, m) =>
      && pid in s.procs && Running(s.procs[pid].pc) && s.procs[pid].slot < |s.slots|
      && CanMove(s.slots[s.procs[pid].slot], s.procs[pid], s.now, m)
    case Fork(pid) => s.mgr == Idle && FirstFree(s.slots) < |s.slots| && pid > 0 && pid !in s.procs
    case RecordPid => s.mgr.Forked? && s.mgr.i < |s.slots|
    case Activate => s.mgr.PidRecorded? && s.mgr.i < |s.slots|
    case FinishCreate => s.mgr.Activated? && s.mgr.i < |s.slots|
    case SendTask(pid, time) =>
      && s.mgr == Idle && pid > 0 && FirstMatch(s.slots, pid) < |s.slots|
      && MIN_TASK_TIME <= time <= MAX_TASK_TIME
      && s.slots[FirstMatch(s.slots, pid)].hasEvent && s.slots[FirstMatch(s.slots, pid)].state != Busy
    case LockToStore => s.mgr.Sending? && s.mgr.i < |s.slots| && s.slots[s.mgr.i].mutex == Free
    case Store => s.mgr.Storing? && s.mgr.i < |s.slots|
    case Notify => s.mgr.Notifying? && s.mgr.i < |s.slots| && s.slots[s.mgr.i].pid in s.procs
  }

  function SetSlot(s: State, i: nat, t: Slot): State
    requires i < |s.slots|
  {
    s.(slots := s.slots[i := t])
  }

  ghost function Apply(s: State, a: Step): State
    requires Enabled(s, a)
  {
    match a
    case Pass(later) => s.(now := later)
    case Look(pid) =>
      var i := FirstMatch(s.slots, pid);
      var p := s.procs[pid];
      s.(procs := s.procs[pid := if i < |s.slots| then p.(pc := Waiting, slot := i) else p.(pc := Exited)])
    case DriverMove(pid, m) =>
      var p := s.procs[pid];
      var t := s.slots[p.slot];
      SetSlot(s, p.slot, SlotAfter(t, p, s.now, m)).(procs := s.procs[pid := ProcAfter(t, p, s.now, m)])
    case Fork(pid) =>
      s.(procs := s.procs[pid := Proc(Born, 0, 0, false, 0, false)], mgr := Forked(FirstFree(s.slots), pid))
    case RecordPid =>
      SetSlot(s, s.mgr.i, s.slots[s.mgr.i].(pid := s.mgr.pid)).(mgr := PidRecorded(s.mgr.i, s.mgr.pid))
    case Activate =>
      SetSlot(s, s.mgr.i, s.slots[s.mgr.i].(active := true)).(mgr := Activated(s.mgr.i, s.mgr.pid))
    case FinishCreate =>
      SetSlot(s, s.mgr.i, s.slots[s.mgr.i].(busyUntil := 0, taskTimer := 0, hasEvent := true, state := Available)).(mgr := Idle)
    case SendTask(pid, time) => s.(mgr := Sending(FirstMatch(s.slots, pid), time))
    case LockToStore => SetSlot(s, s.mgr.i, s.slots[s.mgr.i].(mutex := ByManager)).(mgr := Storing(s.mgr.i, s.mgr.time))
    case Store =>
      SetSlot(s, s.mgr.i, s.slots[s.mgr.i].(taskTimer := s.mgr.time, mutex := Free)).(mgr := Notifying(s.mgr.i, s.mgr.time))
    case Notify =>
      var pid := s.slots[s.mgr.i].pid;
      s.(procs := s.procs[pid := s.procs[pid].(notified := s.procs[pid].notified + 1)], mgr := Idle)
  }

  ghost predicate IsRun(s: State, steps: seq<Step>)
    decreases |steps|
  {
    steps == [] || (Enabled(s, steps[0]) && IsRun(Apply(s, steps[0]), steps[1..]))
  }

  ghost function After(s: State, steps: seq<Step>): State
    requires IsRun(s, steps)
    decreases |steps|
  {
    if steps == [] then s else After(Apply(s, steps[0]), steps[1..])
  }

  // ---------- the invariant ----------

  /** A slot no task has ever reached, and a process that has not been told of one. */
  predicate Quiet(t: Slot) {
    t.state == Available && t.busyUntil == 0 && t.accepted == [] && t.mutex == Free
  }

  predicate Unaware(p: Proc) {
    p.notified == 0 && !p.armed && !p.fired
  }

  ghost predicate SlotInv(s: State, i: nat)
    requires i < |s.slots|
  {
    var t := s.slots[i];
    && (t.mutex == ByManager <==> s.mgr.Storing? && s.mgr.i == i)
    && (!t.active ==> Quiet(t))
    && (t.active ==>
          && t.pid > 0 && t.pid in s.procs && CellInv(t, s.procs[t.pid], s.now)
          && (Running(s.procs[t.pid].pc) ==> s.procs[t.pid].slot == i))
  }

  ghost predicate ProcInv(s: State, pid: nat)
    requires pid in s.procs
  {
    var p := s.procs[pid];
    Running(p.pc) ==> p.slot < |s.slots| && Matches(s.slots[p.slot], pid)
  }

  ghost predicate DistinctPids(slots: seq<Slot>) {
    forall i, j :: 0 <= i < j < |slots| && slots[i].active && slots[j].active ==> slots[i].pid != slots[j].pid
  }

  ghost predicate MgrInv(s: State) {
    match s.mgr
    case Idle => true
    case Forked(i, pid) => NewChild(s, i, pid)
    case PidRecorded(i, pid) => NewChild(s, i, pid) && s.slots[i].pid == pid
    case Activated(i, pid) =>
      && i < |s.slots| && Matches(s.slots[i], pid) && Quiet(s.slots[i])
      && pid in s.procs && Unaware(s.procs[pid]) && (Running(s.procs[pid].pc) ==> s.procs[pid].pc == Waiting)
    case Sending(i, _) => i < |s.slots| && s.slots[i].active
    case Storing(i, _) => i < |s.slots| && s.slots[i].active
    case Notifying(i, _) => i < |s.slots| && s.slots[i].active
  }

  ghost predicate NewChild(s: State, i: nat, pid: nat) {
    && i < |s.slots| && !s.slots[i].active && pid > 0
    && (forall k :: 0 <= k < |s.slots| ==> !Matches(s.slots[k], pid))
    && pid in s.procs && Unaware(s.procs[pid]) && !Running(s.procs[pid].pc)
  }

  ghost predicate Inv(s: State) {
    && |s.slots| == MAX_DRIVERS
    && DistinctPids(s.slots)
    && (forall i :: 0 <= i < |s.slots| ==> SlotInv(s, i))
    && (forall pid :: pid in s.procs ==> ProcInv(s, pid))
    && MgrInv(s)
  }

  // ---------- every step keeps it ----------

  lemma OwnerIsUnique(slots: seq<Slot>, pid: nat, i: nat)
    requires DistinctPids(slots) && i < |slots| && Matches(slots[i], pid)
    ensures FirstMatch(slots, pid) == i
    ensures forall k :: 0 <= k < |slots| && k != i ==> !Matches(slots[k], pid)
  {
  }

  lemma PassKeepsInv(s: State, a: Step)
    requires Inv(s) && Enabled(s, a) && a.Pass?
    ensures Inv(Apply(s, a))
  {
    var s' := Apply(s, a);
    forall i | 0 <= i < |s'.slots| ensures SlotInv(s', i) {
      assert SlotInv(s, i);
      if s.slots[i].active {
        TimeKeepsCell(s.slots[i], s.procs[s.slots[i].pid], s.now, s'.now);
      }
    }
    forall pid | pid in s'.procs ensures ProcInv(s', pid) {
      assert ProcInv(s, pid);
    }
  }

  lemma LookKeepsInv(s: State, a: Step)
    requires Inv(s) && Enabled(s, a) && a.Look?
    ensures Inv(Apply(s, a))
  {
    var s' := Apply(s, a);
    var p := s.procs[a.pid];
    var f := FirstMatch(s.slots, a.pid);
    forall i | 0 <= i < |s'.slots| ensures SlotInv(s', i) {
      assert SlotInv(s, i);
      if s.slots[i].active && s.slots[i].pid == a.pid {
        OwnerIsUnique(s.slots, a.pid, i);
        FoundKeepsCell(s.slots[i], p, s.now, i);
      }
    }
    forall pid | pid in s'.procs ensures ProcInv(s', pid) {
      assert ProcInv(s, pid);
    }
  }

  lemma MoveLeavesOwnership(t: Slot, p: Proc, now: nat, m: Move)
    requires CellInv(t, p, now) && CanMove(t, p, now, m) && Running(p.pc)
    ensures var t', p' := SlotAfter(t, p, now, m), ProcAfter(t, p, now, m);
            && t'.pid == t.pid && t'.active == t.active && p'.slot == p.slot && Running(p'.pc)
            && (t'.mutex == ByManager <==> t.mutex == ByManager)
    ensures !(Unaware(p) && p.pc == Waiting)
  {
    if m.Epoll? {
      var first := m.events[0];
      assert first in m.events && (first == Task || first == Tick);
    }
  }

  lemma DriverMoveKeepsManager(s: State, a: Step)
    requires Inv(s) && Enabled(s, a) && a.DriverMove?
    ensures MgrInv(Apply(s, a))
    ensures DistinctPids(Apply(s, a).slots)
  {
    var p := s.procs[a.pid];
    assert ProcInv(s, a.pid) && SlotInv(s, p.slot);
    MoveLeavesOwnership(s.slots[p.slot], p, s.now, a.m);
  }

  lemma DriverMoveKeepsInv(s: State, a: Step)
    requires Inv(s) && Enabled(s, a) && a.DriverMove?
    ensures Inv(Apply(s, a))
  {
    var s' := Apply(s, a);
    var p := s.procs[a.pid];
    var i := p.slot;
    assert ProcInv(s, a.pid) && SlotInv(s, i);
    MoveKeepsCell(s.slots[i], p, s.now, a.m);
    MoveLeavesOwnership(s.slots[i], p, s.now, a.m);
    OwnerIsUnique(s.slots, a.pid, i);
    DriverMoveKeepsManager(s, a);
    forall k | 0 <= k < |s'.slots| ensures SlotInv(s', k) {
      assert SlotInv(s, k);
    }
    forall pid | pid in s'.procs ensures ProcInv(s', pid) {
      assert ProcInv(s, pid);
    }
  }

  lemma ForkKeepsInv(s: State, a: Step)
    requires Inv(s) && Enabled(s, a) && a.Fork?
    ensures Inv(Apply(s, a))
  {
    var s' := Apply(s, a);
    forall k | 0 <= k < |s'.slots| ensures SlotInv(s', k) && !Matches(s'.slots[k], a.pid) {
      assert SlotInv(s, k);
    }
    forall pid | pid in s'.procs ensures ProcInv(s', pid) {
      if pid in s.procs {
        assert ProcInv(s, pid);
      }
    }
  }

  lemma CreateKeepsInv(s: State, a: Step)
    requires Inv(s) && Enabled(s, a) && (a.RecordPid? || a.Activate? || a.FinishCreate?)
    ensures Inv(Apply(s, a))
  {
    var s' := Apply(s, a);
    assert SlotInv(s, s.mgr.i);
    forall k | 0 <= k < |s'.slots| ensures SlotInv(s', k) {
      assert SlotInv(s, k);
    }
    forall pid | pid in s'.procs ensures ProcInv(s', pid) {
      assert ProcInv(s, pid);
    }
  }

  /** The manager taking or releasing a mutex touches one slot only. */
  lemma StoreKeepsInv(s: State, a: Step)
    requires Inv(s) && Enabled(s, a) && (a.LockToStore? || a.Store?)
    ensures Inv(Apply(s, a))
  {
    var s' := Apply(s, a);
    var i := s.mgr.i;
    var t := s.slots[i];
    assert SlotInv(s, i);
    ManagerKeepsCell(t, s.procs[t.pid], s.now, s.mgr.time);
    forall k | 0 <= k < |s'.slots| ensures SlotInv(s', k) {
      assert SlotInv(s, k);
    }
    forall pid | pid in s'.procs ensures ProcInv(s', pid) {
      assert ProcInv(s, pid);
    }
  }

  lemma NotifyKeepsInv(s: State, a: Step)
    requires Inv(s) && Enabled(s, a) && (a.SendTask? || a.Notify?)
    ensures Inv(Apply(s, a))
  {
    var s' := Apply(s, a);
    if a.Notify? {
      var i := s.mgr.i;
      var t := s.slots[i];
      assert SlotInv(s, i);
      ManagerKeepsCell(t, s.procs[t.pid], s.now, s.mgr.time);
      OwnerIsUnique(s.slots, t.pid, i);
    }
    forall k | 0 <= k < |s'.slots| ensures SlotInv(s', k) {
      assert SlotInv(s, k);
    }
    forall pid | pid in s'.procs ensures ProcInv(s', pid) {
      assert ProcInv(s, pid);
    }
  }

  lemma StepKeepsInv(s: State, a: Step)
    requires Inv(s) && Enabled(s, a)
    ensures Inv(Apply(s, a))
  {
    match a {
      case Pass(_) => PassKeepsInv(s, a);
      case Look(_) => LookKeepsInv(s, a);
      case DriverMove(_, _) => DriverMoveKeepsInv(s, a);
      case SendTask(_, _) => NotifyKeepsInv(s, a);
      case Notify => NotifyKeepsInv(s, a);
      case LockToStore => StoreKeepsInv(s, a);
      case Store => StoreKeepsInv(s, a);
      case Fork(_) => ForkKeepsInv(s, a);
      case _ => CreateKeepsInv(s, a);
    }
  }

  lemma {:induction false} RunKeepsInv(s: State, steps: seq<Step>)
    requires Inv(s) && IsRun(s, steps)
    ensures Inv(After(s, steps))
    decreases |steps|
  {
    if steps != [] {
      StepKeepsInv(s, steps[0]);
      RunKeepsInv(Apply(s, steps[0]), steps[1..]);
    }
  }

  // ---------- what holds in every reachable state ----------

  lemma ReachableInv(s: State, steps: seq<Step>)
    requires Init(s) && IsRun(s, steps)
    ensures Inv(After(s, steps))
  {
    assert forall i :: 0 <= i < |s.slots| ==> s.slots[i] == Untouched();
    RunKeepsInv(s, steps);
  }

  /** No driver is ever given two tasks at once. */
  lemma TasksNeverOverlap(s: State, steps: seq<Step>, i: nat)
    requires Init(s) && IsRun(s, steps) && i < MAX_DRIVERS
    ensures var t := After(s, steps); i < |t.slots| && NoOverlap(t.slots[i].accepted)
  {
    ReachableInv(s, steps);
    assert SlotInv(After(s, steps), i);
  }

  /** Whenever a driver is back in epoll_wait, its slot is BUSY exactly when its timer is still
      to fire or has fired and not been read. */
  lemma BusyMeansTimerPending(s: State, steps: seq<Step>, pid: nat)
    requires Init(s) && IsRun(s, steps)
    requires var t := After(s, steps); pid in t.procs && t.procs[pid].pc == Waiting
    ensures var t := After(s, steps); var p := t.procs[pid];
            p.slot < |t.slots| && (t.slots[p.slot].state == Busy <==> p.armed || p.fired)
  {
    ReachableInv(s, steps);
    var t := After(s, steps);
    assert ProcInv(t, pid);
    assert SlotInv(t, t.procs[pid].slot);
  }

  /** An event handed out by epoll_wait is never lost: the read of the eventfd returns at once,
      and the read of the timer returns when the timer fires. */
  lemma ReadsNeverHang(s: State, steps: seq<Step>, pid: nat)
    requires Init(s) && IsRun(s, steps)
    requires var t := After(s, steps); pid in t.procs && t.procs[pid].pc.Batch? && t.procs[pid].pc.todo != []
    ensures var p := After(s, steps).procs[pid];
            if p.pc.todo[0] == Task then p.notified > 0 else p.armed || p.fired
  {
    ReachableInv(s, steps);
    var t := After(s, steps);
    assert ProcInv(t, pid);
    assert SlotInv(t, t.procs[pid].slot);
  }

  // ---------- the two status commands ----------

  predicate StatusSaysBusy(t: Slot, time: nat) {
    t.state == Busy && t.busyUntil > time
  }

  predicate ListSaysBusy(t: Slot, time: nat) {
    t.busyUntil > time
  }

  /** With the mutex free, BUSY and a positive busy_until are the same thing, so the two
      commands never contradict each other. */
  lemma StatusCommandsAgree(s: State, steps: seq<Step>, i: nat, time: nat)
    requires Init(s) && IsRun(s, steps) && i < MAX_DRIVERS
    requires var t := After(s, steps); i < |t.slots| && t.slots[i].mutex == Free
    ensures var t := After(s, steps).slots[i];
            && (t.state == Busy <==> t.busyUntil > 0)
            && (StatusSaysBusy(t, time) <==> ListSaysBusy(t, time))
  {
    ReachableInv(s, steps);
    assert SlotInv(After(s, steps), i);
  }

  /** And what they say is true: a driver is called busy exactly while a task it has accepted is
      not over. */
  lemma StatusIsTrue(s: State, steps: seq<Step>, i: nat)
    requires Init(s) && IsRun(s, steps) && i < MAX_DRIVERS
    requires var t := After(s, steps); i < |t.slots| && t.slots[i].mutex == Free
    ensures var t := After(s, steps); var second := Seconds(t.now);
            StatusSaysBusy(t.slots[i], second) <==>
            exists k :: 0 <= k < |t.slots[i].accepted| && second < t.slots[i].accepted[k].end
  {
    ReachableInv(s, steps);
    var t := After(s, steps);
    assert SlotInv(t, i);
    var accepted := t.slots[i].accepted;
    if accepted != [] {
      assert forall k :: 0 <= k < |accepted| ==> accepted[k].end <= LastEnd(accepted);
      assert accepted[|accepted| - 1].end == LastEnd(accepted);
    }
  }

  /** Active pids are distinct, so the search finds the one owner of a pid. */
  lemma SearchFindsTheOwner(s: State, steps: seq<Step>, i: nat)
    requires Init(s) && IsRun(s, steps) && i < MAX_DRIVERS
    requires var t := After(s, steps); i < |t.slots| && t.slots[i].active
    ensures var t := After(s, steps);
            && FirstMatch(t.slots, t.slots[i].pid) == i
            && forall k :: 0 <= k < |t.slots| && k != i ==> !Matches(t.slots[k], t.slots[i].pid)
  {
    ReachableInv(s, steps);
    var t := After(s, steps);
    OwnerIsUnique(t.slots, t.slots[i].pid, i);
  }
}
