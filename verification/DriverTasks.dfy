/** What becomes of the tasks that the driver manager sends: each accepted one lasts exactly as long
    as was asked for, and one sent to a driver that is free is accepted. */
module DriverTasks {
  import opened DriverCell
  import opened DriverManager

  /** A driver and a time asked of it. */
  datatype Request = Request(pid: nat, time: int)

  function Asked(steps: seq<Step>): set<Request> {
    set k | 0 <= k < |steps| && steps[k].SendTask? :: Request(steps[k].pid, steps[k].time)
  }

  // ---------- every length was asked for ----------

  ghost predicate SlotTraced(t: Slot, asked: set<Request>) {
    && (t.taskTimer != 0 ==> Request(t.pid, t.taskTimer) in asked)
    && forall k :: 0 <= k < |t.accepted| ==> Request(t.pid, t.accepted[k].end - t.accepted[k].begin) in asked
  }

  ghost predicate ProcTraced(p: Proc, pid: nat, asked: set<Request>) {
    p.pc.Committing? ==> Request(pid, p.pc.time) in asked
  }

  ghost predicate MgrTraced(s: State, asked: set<Request>) {
    && (s.mgr.Sending? || s.mgr.Storing? ==> s.mgr.i < |s.slots| && Request(s.slots[s.mgr.i].pid, s.mgr.time) in asked)
    && (s.mgr.Forked? ==> s.mgr.i < |s.slots| && !s.slots[s.mgr.i].active)
  }

  /** Every time that is stored anywhere, and the length of every accepted task, was asked of that
      driver. */
  ghost predicate Traced(s: State, asked: set<Request>) {
    && (forall i :: 0 <= i < |s.slots| ==> SlotTraced(s.slots[i], asked))
    && (forall i :: 0 <= i < |s.slots| && !s.slots[i].active ==> s.slots[i].taskTimer == 0)
    && (forall pid :: pid in s.procs ==> ProcTraced(s.procs[pid], pid, asked))
    && MgrTraced(s, asked)
  }

  lemma MoveKeepsTraced(t: Slot, p: Proc, now: nat, m: Move, asked: set<Request>)
    requires CanMove(t, p, now, m) && SlotTraced(t, asked) && ProcTraced(p, t.pid, asked)
    ensures SlotTraced(SlotAfter(t, p, now, m), asked) && ProcTraced(ProcAfter(t, p, now, m), t.pid, asked)
    ensures SlotAfter(t, p, now, m).taskTimer == t.taskTimer && SlotAfter(t, p, now, m).pid == t.pid
    ensures SlotAfter(t, p, now, m).active == t.active
  {
  }

  lemma DriverMoveKeepsTraced(s: State, a: Step, asked: set<Request>)
    requires Inv(s) && Enabled(s, a) && a.DriverMove? && Traced(s, asked)
    ensures Traced(Apply(s, a), asked)
  {
    var p := s.procs[a.pid];
    assert ProcInv(s, a.pid);
    assert SlotTraced(s.slots[p.slot], asked) && ProcTraced(p, a.pid, asked);
    MoveKeepsTraced(s.slots[p.slot], p, s.now, a.m, asked);
    var s' := Apply(s, a);
    forall i | 0 <= i < |s'.slots| ensures SlotTraced(s'.slots[i], asked) {
      assert SlotTraced(s.slots[i], asked);
    }
    forall pid | pid in s'.procs ensures ProcTraced(s'.procs[pid], pid, asked) {
      assert pid != a.pid ==> ProcTraced(s.procs[pid], pid, asked);
    }
  }

  lemma ManagerKeepsTraced(s: State, a: Step, asked: set<Request>)
    requires Inv(s) && Enabled(s, a) && !a.DriverMove? && Traced(s, asked)
    requires a.SendTask? ==> Request(a.pid, a.time) in asked
    ensures Traced(Apply(s, a), asked)
  {
    var s' := Apply(s, a);
    forall i | 0 <= i < |s'.slots| ensures SlotTraced(s'.slots[i], asked) {
      assert SlotTraced(s.slots[i], asked) && SlotInv(s, i);
    }
    forall pid | pid in s'.procs ensures ProcTraced(s'.procs[pid], pid, asked) {
      assert pid in s.procs ==> ProcTraced(s.procs[pid], pid, asked);
    }
  }

  lemma MoreAsked(s: State, few: set<Request>, many: set<Request>)
    requires Traced(s, few) && few <= many
    ensures Traced(s, many)
  {
    forall i | 0 <= i < |s.slots| ensures SlotTraced(s.slots[i], many) {
      assert SlotTraced(s.slots[i], few);
    }
    forall pid | pid in s.procs ensures ProcTraced(s.procs[pid], pid, many) {
      assert ProcTraced(s.procs[pid], pid, few);
    }
  }

  lemma AskedFirst(steps: seq<Step>)
    requires steps != []
    ensures Asked(steps) == Asked([steps[0]]) + Asked(steps[1..])
  {
    forall r ensures r in Asked(steps) <==> r in Asked([steps[0]]) || r in Asked(steps[1..]) {
      if r in Asked(steps) {
        var k :| 0 <= k < |steps| && steps[k].SendTask? && r == Request(steps[k].pid, steps[k].time);
        if k == 0 {
          assert [steps[0]][0] == steps[k];
        } else {
          assert steps[1..][k - 1] == steps[k];
        }
      }
      if r in Asked(steps[1..]) {
        var k :| 0 <= k < |steps[1..]| && steps[1..][k].SendTask? && r == Request(steps[1..][k].pid, steps[1..][k].time);
        assert steps[k + 1] == steps[1..][k];
      }
      if r in Asked([steps[0]]) {
        assert steps[0] == [steps[0]][0];
      }
    }
  }

  lemma {:induction false} RunKeepsTraced(s: State, steps: seq<Step>, asked: set<Request>)
    requires Inv(s) && IsRun(s, steps) && Traced(s, asked)
    ensures Traced(After(s, steps), asked + Asked(steps))
    decreases |steps|
  {
    if steps == [] {
      MoreAsked(s, asked, asked + Asked(steps));
    } else {
      var a, more := steps[0], asked + Asked([steps[0]]);
      AskedFirst(steps);
      MoreAsked(s, asked, more);
      if a.DriverMove? {
        DriverMoveKeepsTraced(s, a, more);
      } else {
        assert a.SendTask? ==> [a][0] == a;
        ManagerKeepsTraced(s, a, more);
      }
      StepKeepsInv(s, a);
      RunKeepsTraced(Apply(s, a), steps[1..], more);
      assert more + Asked(steps[1..]) == asked + Asked(steps);
    }
  }

  lemma {:induction false} AskedInBounds(s: State, steps: seq<Step>, k: nat)
    requires IsRun(s, steps) && k < |steps| && steps[k].SendTask?
    ensures 1 <= steps[k].time <= 3600
    decreases k
  {
    if k > 0 {
      AskedInBounds(Apply(s, steps[0]), steps[1..], k - 1);
    }
  }

  /** After every run, each task a driver has accepted lasts exactly as long as some task that was
      sent to that very driver, from 1 to 3600 seconds. */
  lemma LengthsWereAskedFor(s: State, steps: seq<Step>, i: nat, k: nat)
    requires Init(s) && IsRun(s, steps) && i < |After(s, steps).slots| && k < |After(s, steps).slots[i].accepted|
    ensures var t := After(s, steps).slots[i];
            && (exists j :: 0 <= j < |steps| && steps[j] == SendTask(t.pid, t.accepted[k].end - t.accepted[k].begin))
            && 1 <= t.accepted[k].end - t.accepted[k].begin <= 3600
  {
    assert forall j :: 0 <= j < |s.slots| ==> s.slots[j] == Untouched();
    assert Traced(s, {});
    RunKeepsTraced(s, steps, {});
    var t := After(s, steps).slots[i];
    assert SlotTraced(t, {} + Asked(steps));
    var length := t.accepted[k].end - t.accepted[k].begin;
    assert Request(t.pid, length) in Asked(steps);
    var j :| 0 <= j < |steps| && steps[j].SendTask? && Request(t.pid, length) == Request(steps[j].pid, steps[j].time);
    assert steps[j] == SendTask(t.pid, length);
    AskedInBounds(s, steps, j);
  }

  // ---------- a free driver takes its task, a busy one does not ----------

  /** A driver, its slot and its timer, going through some moves with the clock standing still. */
  datatype Cell = Cell(t: Slot, p: Proc)

  ghost predicate Goes(x: Cell, now: nat, m: Move, y: Cell) {
    CanMove(x.t, x.p, now, m) && y == Cell(SlotAfter(x.t, x.p, now, m), ProcAfter(x.t, x.p, now, m))
  }

  /** The cells that `moves` lead through, one after the other. */
  ghost predicate Path(cells: seq<Cell>, now: nat, moves: seq<Move>) {
    |cells| == |moves| + 1 && forall k :: 0 <= k < |moves| ==> Goes(cells[k], now, moves[k], cells[k + 1])
  }

  lemma PathsJoin(a: seq<Cell>, ms: seq<Move>, b: seq<Cell>, ns: seq<Move>, now: nat)
    requires Path(a, now, ms) && Path(b, now, ns) && a[|ms|] == b[0]
    ensures Path(a + b[1..], now, ms + ns)
  {
    var cells, moves := a + b[1..], ms + ns;
    forall k | 0 <= k < |moves| ensures Goes(cells[k], now, moves[k], cells[k + 1]) {
      if k >= |ms| {
        assert Goes(b[k - |ms|], now, ns[k - |ms|], b[k - |ms| + 1]);
        assert cells[k] == b[k - |ms|];
      } else {
        assert Goes(a[k], now, ms[k], a[k + 1]);
      }
    }
  }

  /** Told of a task, a waiting driver comes to decide on it. */
  lemma ComesToDecide(x: Cell, now: nat) returns (cells: seq<Cell>)
    requires x.p.pc == Waiting && x.t.mutex == Free && x.p.notified > 0
    ensures Path(cells, now, [Epoll([Task]), ReadTask, Lock]) && cells[0] == x
    ensures cells[3] == Cell(x.t.(mutex := ByDriver), x.p.(pc := Deciding([]), notified := 0))
  {
    var p1 := x.p.(pc := Batch([Task]));
    var p2 := x.p.(pc := GotTask([]), notified := 0);
    assert [Task][1..] == [];
    cells := [x, Cell(x.t, p1), Cell(x.t, p2), Cell(x.t.(mutex := ByDriver), p2.(pc := Deciding([])))];
    assert Goes(x, now, Epoll([Task]), cells[1]);
    assert Goes(cells[1], now, ReadTask, cells[2]);
    assert Goes(cells[2], now, Lock, cells[3]);
  }

  lemma TakesIt(x: Cell, now: nat) returns (cells: seq<Cell>)
    requires x.p.pc == Deciding([]) && x.t.busyUntil <= Seconds(now) && x.t.taskTimer > 0
    ensures Path(cells, now, [Decide, Commit, Arm, BackToWait]) && cells[0] == x
    ensures var begin, time := Seconds(now), x.t.taskTimer;
            cells[4] == Cell(
              x.t.(state := Busy, busyUntil := begin + time, mutex := Free,
                   accepted := x.t.accepted + [Interval(begin, begin + time)]),
              x.p.(pc := Waiting, armed := true, fired := false, expiresAt := now + TICKS * time))
  {
    var time := x.t.taskTimer;
    var until := Seconds(now) + time;
    var p1, t1 := x.p.(pc := Committing(time, [])), x.t.(state := Busy);
    var p2 := x.p.(pc := Arming(time, []));
    var t2 := t1.(busyUntil := until, mutex := Free, accepted := x.t.accepted + [Interval(Seconds(now), until)]);
    var p3 := x.p.(pc := Batch([]), armed := true, fired := false, expiresAt := now + TICKS * time);
    cells := [x, Cell(t1, p1), Cell(t2, p2), Cell(t2, p3), Cell(t2, p3.(pc := Waiting))];
    assert Goes(x, now, Decide, cells[1]);
    assert Goes(cells[1], now, Commit, cells[2]);
    assert Goes(cells[2], now, Arm, cells[3]);
    assert Goes(cells[3], now, BackToWait, cells[4]);
  }

  /** A waiting driver that is free and has been told of a task takes it, from this second on and
      for exactly its time, and sets its timer for that long. */
  lemma FreeDriverTakesTask(x: Cell, now: nat) returns (cells: seq<Cell>)
    requires CellInv(x.t, x.p, now) && x.p.pc == Waiting && x.t.mutex == Free
    requires x.t.state == Available && x.t.taskTimer > 0 && x.p.notified > 0
    ensures Path(cells, now, [Epoll([Task]), ReadTask, Lock] + [Decide, Commit, Arm, BackToWait]) && cells[0] == x
    ensures var begin, time := Seconds(now), x.t.taskTimer;
            cells[7] == Cell(
              x.t.(state := Busy, busyUntil := begin + time, accepted := x.t.accepted + [Interval(begin, begin + time)]),
              x.p.(notified := 0, armed := true, fired := false, expiresAt := now + TICKS * time))
  {
    var first := ComesToDecide(x, now);
    var second := TakesIt(first[3], now);
    PathsJoin(first, [Epoll([Task]), ReadTask, Lock], second, [Decide, Commit, Arm, BackToWait], now);
    cells := first + second[1..];
    assert cells[7] == second[4];
  }

  /** A driver that is still busy drops what it is told and goes on as before. */
  lemma BusyDriverRefuses(x: Cell, now: nat) returns (cells: seq<Cell>)
    requires CellInv(x.t, x.p, now) && x.p.pc == Waiting && x.t.mutex == Free
    requires x.t.busyUntil > Seconds(now) && x.p.notified > 0
    ensures Path(cells, now, [Epoll([Task]), ReadTask, Lock] + [Decide, BackToWait]) && cells[0] == x
    ensures cells[5] == Cell(x.t, x.p.(notified := 0))
  {
    var first := ComesToDecide(x, now);
    var p4 := x.p.(pc := Batch([]), notified := 0);
    var second := [first[3], Cell(x.t, p4), Cell(x.t, p4.(pc := Waiting))];
    assert Goes(first[3], now, Decide, second[1]);
    assert Goes(second[1], now, BackToWait, second[2]);
    PathsJoin(first, [Epoll([Task]), ReadTask, Lock], second, [Decide, BackToWait], now);
    cells := first + second[1..];
    assert cells[5] == second[2];
  }

  /** When its timer has run out, the driver becomes free again. */
  lemma TimerFreesDriver(x: Cell, now: nat) returns (cells: seq<Cell>)
    requires CellInv(x.t, x.p, now) && x.p.pc == Waiting && x.t.mutex == Free
    requires x.p.armed && now >= x.p.expiresAt
    ensures Path(cells, now, [Fire, Epoll([Tick]), ReadTick] + [Lock, MarkAvailable, ClearTime, BackToWait]) && cells[0] == x
    ensures cells[7] == Cell(x.t.(state := Available, busyUntil := 0), x.p.(armed := false, fired := false))
  {
    var p1 := x.p.(armed := false, fired := true);
    var p3 := x.p.(pc := GotTick([]), armed := false, fired := false);
    assert [Tick][1..] == [];
    var first := [x, Cell(x.t, p1), Cell(x.t, p1.(pc := Batch([Tick]))), Cell(x.t, p3)];
    assert Goes(x, now, Fire, first[1]);
    assert Goes(first[1], now, Epoll([Tick]), first[2]);
    assert Goes(first[2], now, ReadTick, first[3]);
    var second := BecomesFree(first[3], now);
    PathsJoin(first, [Fire, Epoll([Tick]), ReadTick], second, [Lock, MarkAvailable, ClearTime, BackToWait], now);
    cells := first + second[1..];
    assert cells[7] == second[4];
  }

  lemma BecomesFree(x: Cell, now: nat) returns (cells: seq<Cell>)
    requires x.p.pc == GotTick([]) && x.t.mutex == Free
    ensures Path(cells, now, [Lock, MarkAvailable, ClearTime, BackToWait]) && cells[0] == x
    ensures cells[4] == Cell(x.t.(state := Available, busyUntil := 0), x.p.(pc := Waiting))
  {
    var t1 := x.t.(mutex := ByDriver);
    var t2 := t1.(state := Available);
    var t3 := x.t.(state := Available, busyUntil := 0);
    cells := [x, Cell(t1, x.p.(pc := Freeing([]))), Cell(t2, x.p.(pc := Clearing([]))), Cell(t3, x.p.(pc := Batch([]))),
              Cell(t3, x.p.(pc := Waiting))];
    assert Goes(x, now, Lock, cells[1]);
    assert Goes(cells[1], now, MarkAvailable, cells[2]);
    assert Goes(cells[2], now, ClearTime, cells[3]);
    assert Goes(cells[3], now, BackToWait, cells[4]);
  }

  /** The time stored for driver i and the driver told of it. */
  ghost function Delivered(s: State, i: nat, time: int): State
    requires i < |s.slots| && s.slots[i].pid in s.procs
  {
    var t := s.slots[i];
    var p := s.procs[t.pid];
    s.(slots := s.slots[i := t.(taskTimer := time)], procs := s.procs[t.pid := p.(notified := p.notified + 1)], mgr := Idle)
  }

  /** A task of 1 to 3600 seconds for a driver that is there and not busy gets to it: its time is
      stored and the driver is told. */
  lemma TaskGetsThrough(s: State, pid: nat, time: int)
    requires Inv(s) && s.mgr == Idle && 1 <= time <= 3600 && pid > 0 && FirstMatch(s.slots, pid) < |s.slots|
    requires var t := s.slots[FirstMatch(s.slots, pid)]; t.hasEvent && t.state == Available && t.mutex == Free
    ensures var steps := [SendTask(pid, time)] + [LockToStore, Store, Notify];
            pid in s.procs && IsRun(s, steps) && After(s, steps) == Delivered(s, FirstMatch(s.slots, pid), time)
  {
    var i := FirstMatch(s.slots, pid);
    assert SlotInv(s, i);
    SendStarts(s, i, pid, time);
    StoredAndTold(Apply(s, SendTask(pid, time)), s.slots[i]);
    OneStepRun(s, SendTask(pid, time), [LockToStore, Store, Notify]);
  }

  lemma SendStarts(s: State, i: nat, pid: nat, time: int)
    requires s.mgr == Idle && 1 <= time <= 3600 && pid > 0 && i == FirstMatch(s.slots, pid) < |s.slots|
    requires s.slots[i].hasEvent && s.slots[i].state == Available && pid in s.procs
    ensures Enabled(s, SendTask(pid, time)) && Apply(s, SendTask(pid, time)) == s.(mgr := Sending(i, time))
    ensures Delivered(s.(mgr := Sending(i, time)), i, time) == Delivered(s, i, time)
  {
  }

  lemma StoredAndTold(s: State, t: Slot)
    requires s.mgr.Sending? && s.mgr.i < |s.slots| && t == s.slots[s.mgr.i] && t.mutex == Free && t.pid in s.procs
    ensures IsRun(s, [LockToStore, Store, Notify])
    ensures After(s, [LockToStore, Store, Notify]) == Delivered(s, s.mgr.i, s.mgr.time)
  {
    var i, time := s.mgr.i, s.mgr.time;
    var s2 := s.(slots := s.slots[i := t.(mutex := ByManager)], mgr := Storing(i, time));
    assert Enabled(s, LockToStore) && Apply(s, LockToStore) == s2;
    Told(s2, s.slots, t);
    OneStepRun(s, LockToStore, [Store, Notify]);
    assert [LockToStore] + [Store, Notify] == [LockToStore, Store, Notify];
  }

  lemma Told(s: State, slots: seq<Slot>, t: Slot)
    requires s.mgr.Storing? && s.mgr.i < |slots| && t.mutex == Free && t.pid in s.procs
    requires s.slots == slots[s.mgr.i := t.(mutex := ByManager)]
    ensures var steps := [Store, Notify]; var p := s.procs[t.pid];
            && IsRun(s, steps)
            && After(s, steps) == s.(slots := slots[s.mgr.i := t.(taskTimer := s.mgr.time)],
                                     procs := s.procs[t.pid := p.(notified := p.notified + 1)], mgr := Idle)
  {
    var i, time := s.mgr.i, s.mgr.time;
    var s3 := s.(slots := slots[i := t.(taskTimer := time)], mgr := Notifying(i, time));
    assert s.slots[i := t.(taskTimer := time)] == s3.slots;
    assert Enabled(s, Store) && Apply(s, Store) == s3;
    assert Enabled(s3, Notify);
    OneStepRun(s3, Notify, []);
    OneStepRun(s, Store, [Notify]);
    assert [Store] + [Notify] == [Store, Notify] && [Notify] + [] == [Notify];
  }

  lemma OneStepRun(s: State, a: Step, rest: seq<Step>)
    requires Enabled(s, a) && IsRun(Apply(s, a), rest)
    ensures IsRun(s, [a] + rest) && After(s, [a] + rest) == After(Apply(s, a), rest)
  {
    assert ([a] + rest)[1..] == rest;
  }

  // ---------- a new driver ----------

  /** Whether a new process stays depends on when it looks for its slot: it waits for tasks exactly
      if the manager has marked the slot as active by then, and exits otherwise. */
  lemma LookingDecides(s: State, pid: nat)
    requires Enabled(s, Look(pid))
    ensures var p := Apply(s, Look(pid)).procs[pid];
            if exists i :: 0 <= i < |s.slots| && Matches(s.slots[i], pid)
            then p.pc == Waiting && p.slot < |s.slots| && Matches(s.slots[p.slot], pid)
            else p.pc == Exited
  {
  }

  /** The manager's part of a creation: the first free slot gets the pid, becomes active and ready
      for tasks. */
  lemma CreationFillsSlot(s: State, pid: nat)
    requires s.mgr.Forked? && s.mgr.i < |s.slots| && s.mgr.pid == pid
    ensures var i := s.mgr.i; var t := s.slots[i];
            && IsRun(s, [RecordPid, Activate, FinishCreate])
            && After(s, [RecordPid, Activate, FinishCreate]) ==
               s.(slots := s.slots[i := t.(pid := pid, active := true, busyUntil := 0, taskTimer := 0, hasEvent := true,
                                           state := Available)], mgr := Idle)
  {
    var i := s.mgr.i;
    var t := s.slots[i];
    var s1 := s.(slots := s.slots[i := t.(pid := pid)], mgr := PidRecorded(i, pid));
    assert Enabled(s, RecordPid) && Apply(s, RecordPid) == s1;
    ActivationFillsSlot(s1, s.slots, t.(pid := pid));
    OneStepRun(s, RecordPid, [Activate, FinishCreate]);
    assert [RecordPid] + [Activate, FinishCreate] == [RecordPid, Activate, FinishCreate];
  }

  lemma ActivationFillsSlot(s: State, slots: seq<Slot>, t: Slot)
    requires s.mgr.PidRecorded? && s.mgr.i < |slots| && s.slots == slots[s.mgr.i := t]
    ensures var i := s.mgr.i;
            && IsRun(s, [Activate, FinishCreate])
            && After(s, [Activate, FinishCreate]) ==
               s.(slots := slots[i := t.(active := true, busyUntil := 0, taskTimer := 0, hasEvent := true, state := Available)],
                  mgr := Idle)
  {
    var i := s.mgr.i;
    var s2 := s.(slots := slots[i := t.(active := true)], mgr := Activated(i, s.mgr.pid));
    assert s.slots[i := t.(active := true)] == s2.slots;
    assert Enabled(s, Activate) && Apply(s, Activate) == s2;
    assert Enabled(s2, FinishCreate);
    OneStepRun(s2, FinishCreate, []);
    OneStepRun(s, Activate, [FinishCreate]);
    assert [Activate] + [FinishCreate] == [Activate, FinishCreate] && [FinishCreate] + [] == [FinishCreate];
  }

  /** A driver that looks too early is gone, yet stays listed as active and available, so tasks
      can be sent to it. */
  lemma EarlyDriverIsLost(s: State, pid: nat) returns (steps: seq<Step>)
    requires Inv(s) && Enabled(s, Fork(pid))
    ensures IsRun(s, steps)
    ensures var t := After(s, steps); var i := FirstFree(s.slots);
            && i < |t.slots| && Matches(t.slots[i], pid) && t.slots[i].state == Available && t.slots[i].hasEvent
            && pid in t.procs && t.procs[pid].pc == Exited && t.mgr == Idle
  {
    var i := FirstFree(s.slots);
    var s1 := Apply(s, Fork(pid));
    forall k | 0 <= k < |s.slots| ensures !Matches(s.slots[k], pid) {
      assert SlotInv(s, k);
    }
    LookingDecides(s1, pid);
    var s2 := Apply(s1, Look(pid));
    CreationFillsSlot(s2, pid);
    OneStepRun(s1, Look(pid), [RecordPid, Activate, FinishCreate]);
    OneStepRun(s, Fork(pid), [Look(pid)] + [RecordPid, Activate, FinishCreate]);
    steps := [Fork(pid)] + ([Look(pid)] + [RecordPid, Activate, FinishCreate]);
  }

  /** A driver that has exited stays so, and its slot never shows an accepted task. */
  lemma LostStaysLost(s: State, a: Step, pid: nat, i: nat)
    requires Inv(s) && Enabled(s, a) && i < |s.slots| && Matches(s.slots[i], pid)
    requires pid in s.procs && s.procs[pid].pc == Exited
    ensures pid in Apply(s, a).procs && Apply(s, a).procs[pid].pc == Exited
    ensures Apply(s, a).slots[i].accepted == []
  {
    assert SlotInv(s, i);
    if a.DriverMove? {
      assert ProcInv(s, a.pid);
      assert s.procs[a.pid].slot != i;
    }
  }
}
