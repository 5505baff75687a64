/** One driver of the driver manager: its slot in shared memory, its process, its timer, and
    the steps it takes. */
module DriverCell {
  import opened Basics

  /** Clock ticks per second: timers run in ticks, time(NULL) in whole seconds. */
  const TICKS := 1_000_000_000

  function Seconds(now: nat): nat {
    now / TICKS
  }

  datatype DriverState = Available | Busy
  datatype Holder = Free | ByManager | ByDriver

  /** A task accepted at second `begin` that occupies the driver until second `end`. */
  datatype Interval = Interval(begin: nat, end: nat)

  datatype Slot = Slot(
    pid: nat, active: bool, state: DriverState, taskTimer: int, busyUntil: int, hasEvent: bool,
    mutex: Holder, accepted: seq<Interval>)

  datatype Event = Task | Tick

  datatype DriverPc =
    | Born                                      // about to look for its slot
    | Exited
    | Waiting                                   // in epoll_wait
    | Batch(todo: seq<Event>)                   // events still to be handled
    | GotTask(todo: seq<Event>)                 // eventfd read, mutex not yet taken
    | Deciding(todo: seq<Event>)                // holds the mutex, about to test busy_until
    | Committing(time: nat, todo: seq<Event>)   // state is BUSY, busy_until not yet written
    | Arming(time: nat, todo: seq<Event>)       // mutex released, timer not yet set
    | GotTick(todo: seq<Event>)                 // timer read, mutex not yet taken
    | Freeing(todo: seq<Event>)                 // holds the mutex, state not yet written
    | Clearing(todo: seq<Event>)                // state is AVAILABLE, busy_until not yet written

  datatype Proc = Proc(pc: DriverPc, slot: nat, notified: nat, armed: bool, expiresAt: nat, fired: bool)

  datatype Move =
    | Epoll(events: seq<Event>) | ReadTask | Lock | Decide | Commit | Arm
    | ReadTick | MarkAvailable | ClearTime | BackToWait | Fire

  // ---------- the driver's loop, step by step ----------

  ghost predicate CanMove(s: Slot, p: Proc, now: nat, m: Move) {
    match m
    case Epoll(events) =>
      && p.pc == Waiting && events != [] && Distinct(events)
      && (Task in events ==> p.notified > 0) && (Tick in events ==> p.fired)
    case ReadTask => p.pc.Batch? && p.pc.todo != [] && p.pc.todo[0] == Task && p.notified > 0
    case Lock => s.mutex == Free && (p.pc.GotTask? || p.pc.GotTick?)
    case Decide => p.pc.Deciding?
    case Commit => p.pc.Committing?
    case Arm => p.pc.Arming?
    case ReadTick => p.pc.Batch? && p.pc.todo != [] && p.pc.todo[0] == Tick && p.fired
    case MarkAvailable => p.pc.Freeing?
    case ClearTime => p.pc.Clearing?
    case BackToWait => p.pc == Batch([])
    case Fire => p.armed && now >= p.expiresAt
  }

  ghost function SlotAfter(s: Slot, p: Proc, now: nat, m: Move): Slot
    requires CanMove(s, p, now, m)
  {
    match m
    case Lock => s.(mutex := ByDriver)
    case Decide =>
      if s.busyUntil > Seconds(now) || s.taskTimer <= 0 then s.(mutex := Free) else s.(state := Busy)
    case Commit =>
      var until := Seconds(now) + p.pc.time;
      s.(busyUntil := until, mutex := Free, accepted := s.accepted + [Interval(Seconds(now), until)])
    case MarkAvailable => s.(state := Available)
    case ClearTime => s.(busyUntil := 0, mutex := Free)
    case _ => s
  }

  ghost function ProcAfter(s: Slot, p: Proc, now: nat, m: Move): Proc
    requires CanMove(s, p, now, m)
  {
    match m
    case Epoll(events) => p.(pc := Batch(events))
    case ReadTask => p.(pc := GotTask(p.pc.todo[1..]), notified := 0)
    case Lock => p.(pc := if p.pc.GotTask? then Deciding(p.pc.todo) else Freeing(p.pc.todo))
    case Decide =>
      if s.busyUntil > Seconds(now) || s.taskTimer <= 0 then p.(pc := Batch(p.pc.todo))
      else p.(pc := Committing(s.taskTimer, p.pc.todo))
    case Commit => p.(pc := Arming(p.pc.time, p.pc.todo))
    case Arm =>
      p.(pc := Batch(p.pc.todo), armed := true, fired := false, expiresAt := now + TICKS * p.pc.time)
    case ReadTick => p.(pc := GotTick(p.pc.todo[1..]), fired := false)
    case MarkAvailable => p.(pc := Clearing(p.pc.todo))
    case ClearTime => p.(pc := Batch(p.pc.todo))
    case BackToWait => p.(pc := Waiting)
    case Fire => p.(armed := false, fired := true)
  }

  // ---------- the invariant of one driver ----------

  function LastEnd(accepted: seq<Interval>): nat {
    if accepted == [] then 0 else accepted[|accepted| - 1].end
  }

  function LastLength(accepted: seq<Interval>): int {
    if accepted == [] then 0 else accepted[|accepted| - 1].end - accepted[|accepted| - 1].begin
  }

  /** Accepted tasks take time and never overlap. */
  ghost predicate NoOverlap(accepted: seq<Interval>) {
    && (forall i :: 0 <= i < |accepted| ==> accepted[i].begin < accepted[i].end)
    && (forall i, j :: 0 <= i < j < |accepted| ==> accepted[i].end <= accepted[j].begin)
  }

  predicate HoldsMutex(pc: DriverPc) {
    pc.Deciding? || pc.Committing? || pc.Freeing? || pc.Clearing?
  }

  predicate Pending(p: Proc) {
    p.armed || p.fired
  }

  /** Slot and clock agree on what the last accepted task occupies. */
  predicate TimesAgree(s: Slot, now: nat) {
    && s.busyUntil >= 0
    && (s.state == Busy <==> s.busyUntil > 0)
    && (s.busyUntil > 0 ==> s.busyUntil == LastEnd(s.accepted))
    && (s.busyUntil == 0 ==> LastEnd(s.accepted) <= Seconds(now))
  }

  /** The timer will not fire before the last accepted task is over, and has at most the length of
      that task still to run. */
  predicate TimerAgrees(s: Slot, p: Proc, now: nat) {
    && (s.state == Busy <==> Pending(p))
    && (p.armed ==> TICKS * LastEnd(s.accepted) <= p.expiresAt <= now + TICKS * LastLength(s.accepted))
    && (p.fired ==> LastEnd(s.accepted) <= Seconds(now))
  }

  /** Events handed out by epoll_wait and not yet handled can still be read. */
  ghost predicate EventsReady(p: Proc, todo: seq<Event>) {
    && Distinct(todo)
    && (Task in todo ==> p.notified > 0)
  }

  ghost predicate PcInv(s: Slot, p: Proc, now: nat) {
    match p.pc
    case Waiting => TimesAgree(s, now) && TimerAgrees(s, p, now)
    case Batch(todo) =>
      TimesAgree(s, now) && TimerAgrees(s, p, now) && EventsReady(p, todo) && (Tick in todo ==> Pending(p))
    case GotTask(todo) =>
      TimesAgree(s, now) && TimerAgrees(s, p, now) && EventsReady(p, todo) && Task !in todo && (Tick in todo ==> Pending(p))
    case Deciding(todo) =>
      TimesAgree(s, now) && TimerAgrees(s, p, now) && EventsReady(p, todo) && Task !in todo && (Tick in todo ==> Pending(p))
    case Committing(time, todo) =>
      s.state == Busy && time > 0 && LastEnd(s.accepted) <= Seconds(now) && EventsReady(p, todo) && Task !in todo
    case Arming(time, todo) =>
      && TimesAgree(s, now) && s.state == Busy && time > 0 && time == LastLength(s.accepted)
      && TICKS * LastEnd(s.accepted) <= now + TICKS * time
      && EventsReady(p, todo) && Task !in todo
    case GotTick(todo) =>
      TimesAgree(s, now) && s.state == Busy && !Pending(p) && LastEnd(s.accepted) <= Seconds(now)
      && EventsReady(p, todo) && Tick !in todo
    case Freeing(todo) =>
      TimesAgree(s, now) && s.state == Busy && !Pending(p) && LastEnd(s.accepted) <= Seconds(now)
      && EventsReady(p, todo) && Tick !in todo
    case Clearing(todo) =>
      s.state == Available && !Pending(p) && LastEnd(s.accepted) <= Seconds(now)
      && EventsReady(p, todo) && Tick !in todo
    // a driver that has not found its slot, or never did, has touched nothing
    case _ => s.state == Available && s.busyUntil == 0 && s.accepted == [] && !Pending(p)
  }

  ghost predicate CellInv(s: Slot, p: Proc, now: nat) {
    && NoOverlap(s.accepted)
    && !(p.armed && p.fired)
    && (s.mutex == ByDriver <==> HoldsMutex(p.pc))
    && PcInv(s, p, now)
  }

  lemma SecondsFacts(now: nat, later: nat, x: nat)
    requires now <= later
    ensures Seconds(now) <= Seconds(later)
    ensures TICKS * x <= now ==> x <= Seconds(now)
    ensures TICKS * Seconds(now) <= now
  {
  }

  lemma AcceptedGrows(accepted: seq<Interval>, begin: nat, end: nat)
    requires NoOverlap(accepted) && LastEnd(accepted) <= begin < end
    ensures NoOverlap(accepted + [Interval(begin, end)])
    ensures LastEnd(accepted + [Interval(begin, end)]) == end
    ensures LastLength(accepted + [Interval(begin, end)]) == end - begin
  {
    assert forall i :: 0 <= i < |accepted| ==> accepted[i].end <= LastEnd(accepted);
  }

  lemma DecideKeepsCell(s: Slot, p: Proc, now: nat)
    requires CellInv(s, p, now) && CanMove(s, p, now, Decide)
    ensures CellInv(SlotAfter(s, p, now, Decide), ProcAfter(s, p, now, Decide), now)
  {
    SecondsFacts(now, now, LastEnd(s.accepted));
  }

  lemma CommitKeepsCell(s: Slot, p: Proc, now: nat)
    requires CellInv(s, p, now) && CanMove(s, p, now, Commit)
    ensures CellInv(SlotAfter(s, p, now, Commit), ProcAfter(s, p, now, Commit), now)
  {
    SecondsFacts(now, now, 0);
    AcceptedGrows(s.accepted, Seconds(now), Seconds(now) + p.pc.time);
  }

  lemma ArmKeepsCell(s: Slot, p: Proc, now: nat)
    requires CellInv(s, p, now) && CanMove(s, p, now, Arm)
    ensures CellInv(SlotAfter(s, p, now, Arm), ProcAfter(s, p, now, Arm), now)
  {
  }

  lemma ReadMovesKeepCell(s: Slot, p: Proc, now: nat, m: Move)
    requires CellInv(s, p, now) && CanMove(s, p, now, m) && (m.ReadTask? || m.ReadTick?)
    ensures CellInv(SlotAfter(s, p, now, m), ProcAfter(s, p, now, m), now)
  {
    assert p.pc.todo == [p.pc.todo[0]] + p.pc.todo[1..];
    assert p.pc.todo[0] !in p.pc.todo[1..];
  }

  lemma OtherMovesKeepCell(s: Slot, p: Proc, now: nat, m: Move)
    requires CellInv(s, p, now) && CanMove(s, p, now, m)
    requires m.Epoll? || m.Lock? || m.MarkAvailable? || m.ClearTime? || m.BackToWait? || m.Fire?
    ensures CellInv(SlotAfter(s, p, now, m), ProcAfter(s, p, now, m), now)
  {
    SecondsFacts(now, now, LastEnd(s.accepted));
  }

  /** Every step of the driver or of its timer keeps the invariant. */
  lemma MoveKeepsCell(s: Slot, p: Proc, now: nat, m: Move)
    requires CellInv(s, p, now) && CanMove(s, p, now, m)
    ensures CellInv(SlotAfter(s, p, now, m), ProcAfter(s, p, now, m), now)
  {
    if m.Decide? {
      DecideKeepsCell(s, p, now);
    } else if m.Commit? {
      CommitKeepsCell(s, p, now);
    } else if m.Arm? {
      ArmKeepsCell(s, p, now);
    } else if m.ReadTask? || m.ReadTick? {
      ReadMovesKeepCell(s, p, now, m);
    } else {
      OtherMovesKeepCell(s, p, now, m);
    }
  }

  /** So does the passing of time. */
  lemma TimeKeepsCell(s: Slot, p: Proc, now: nat, later: nat)
    requires CellInv(s, p, now) && now <= later
    ensures CellInv(s, p, later)
  {
    SecondsFacts(now, later, 0);
  }

  /** And the manager storing a task under the mutex, or notifying the driver. */
  lemma ManagerKeepsCell(s: Slot, p: Proc, now: nat, time: int)
    requires CellInv(s, p, now)
    ensures s.mutex == Free ==> CellInv(s.(mutex := ByManager), p, now)
    ensures s.mutex == ByManager ==> CellInv(s.(mutex := Free, taskTimer := time), p, now)
    ensures CellInv(s, p.(notified := p.notified + 1), now)
  {
  }

  /** The process finds its slot. */
  lemma FoundKeepsCell(s: Slot, p: Proc, now: nat, i: nat)
    requires CellInv(s, p, now) && p.pc == Born
    ensures CellInv(s, p.(pc := Waiting, slot := i), now)
    ensures CellInv(s, p.(pc := Exited), now)
  {
  }
}
