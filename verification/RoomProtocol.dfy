/** The shared-memory chat room as interleaved steps: every client has a main thread and a
    reader thread, all of them share one log under one lock and one condition variable. */
module RoomProtocol {
  import opened RoomLog

  // ---------- states ----------

  /** Where in its critical section a writer is. */
  datatype Stage = Locked | Written | Announced

  datatype MainPc =
    | Fresh
    | Starting(st: Stage)
    | Running
    | Sending(st: Stage, text: string)
    | StopRequested
    | Stopping(st: Stage)
    | Joining
    | Gone

  datatype ReaderPc =
    | NotCreated
    | Top         // about to test stop_requested
    | Locking     // about to take the lock
    | Testing     // holds the lock, about to test the wait condition
    | Asleep      // waiting on the condition variable
    | Waking      // woken, about to take the lock again
    | Draining    // holds the lock, in the inner loop
    | RosterDone  // the entry's effect on the roster is in
    | LineDone    // the entry's line is in, last_msg not yet increased
    | Finished

  datatype Client = Client(
    pid: nat, main: MainPc, stop: bool,
    reader: ReaderPc, last: nat, roster: seq<string>, lines: seq<string>)

  datatype Holder = Nobody | MainOf(c: nat) | ReaderOf(c: nat)

  datatype State = State(log: seq<Message>, joins: nat, holder: Holder, clients: seq<Client>)

  datatype Step =
    | LockToStart(c: nat) | LockToSend(c: nat, text: string) | LockToStop(c: nat)
    | Write(c: nat) | Announce(c: nat) | Release(c: nat)
    | RequestStop(c: nat) | JoinReader(c: nat)
    | TestStop(c: nat) | ReaderLock(c: nat) | TestWait(c: nat) | WakeUp(c: nat)
    | TakeRoster(c: nat) | TakeLine(c: nat) | CountEntry(c: nat) | ReaderUnlock(c: nat)

  predicate InSection(pc: MainPc) {
    pc.Starting? || pc.Sending? || pc.Stopping?
  }

  predicate HoldsLock(pc: ReaderPc) {
    pc in {Testing, Draining, RosterDone, LineDone}
  }

  predicate Init(s: State) {
    && s.log == [] && s.joins == 0 && s.holder == Nobody
    && forall c :: 0 <= c < |s.clients| ==>
         s.clients[c] == Client(s.clients[c].pid, Fresh, false, NotCreated, 0, [], [])
  }

  // ---------- steps ----------

  /** A start appends its notice only while fewer than 256 clients were ever registered. */
  predicate Appends(s: State, pc: MainPc) {
    pc.Starting? ==> s.joins < MAX_CLIENTS
  }

  predicate Enabled(s: State, a: Step) {
    a.c < |s.clients| &&
    var k := s.clients[a.c];
    match a
    case LockToStart(_) => s.holder == Nobody && k.main == Fresh
    case LockToSend(_, _) => s.holder == Nobody && k.main == Running
    case LockToStop(_) => s.holder == Nobody && k.main == StopRequested
    case Write(_) => InSection(k.main) && k.main.st == Locked && (Appends(s, k.main) ==> |s.log| < MAX_MESSAGES)
    case Announce(_) => InSection(k.main) && k.main.st == Written
    case Release(_) => InSection(k.main) && k.main.st == Announced
    case RequestStop(_) => k.main == Running
    case JoinReader(_) => k.main == Joining && k.reader == Finished
    case TestStop(_) => k.reader == Top
    case ReaderLock(_) => s.holder == Nobody && (k.reader == Locking || k.reader == Waking)
    case TestWait(_) => k.reader == Testing
    case WakeUp(_) => k.reader == Asleep
    case TakeRoster(_) => k.reader == Draining && k.last < |s.log|
    case TakeLine(_) => k.reader == RosterDone && k.last < |s.log|
    case CountEntry(_) => k.reader == LineDone
    case ReaderUnlock(_) => k.reader == Draining && k.last >= |s.log|
  }

  function Put(s: State, c: nat, k: Client): State
    requires c < |s.clients|
  {
    s.(clients := s.clients[c := k])
  }

  /** pthread_cond_broadcast: everybody asleep will try for the lock. */
  function Woken(clients: seq<Client>): (r: seq<Client>)
    ensures |r| == |clients|
    ensures forall i :: 0 <= i < |clients| ==>
              r[i] == if clients[i].reader == Asleep then clients[i].(reader := Waking) else clients[i]
  {
    seq(|clients|, i requires 0 <= i < |clients| =>
      if clients[i].reader == Asleep then clients[i].(reader := Waking) else clients[i])
  }

  /** The body of a critical section: what a main thread writes. */
  function WriteEntry(s: State, c: nat): State
    requires c < |s.clients| && InSection(s.clients[c].main)
  {
    var k := s.clients[c];
    match k.main
    case Starting(_) =>
      var s' := Put(s, c, k.(main := Starting(Written)));
      if s.joins < MAX_CLIENTS then s'.(joins := s.joins + 1, log := s.log + [JoinNotice(k.pid)]) else s'
    case Sending(_, text) =>
      Put(s, c, k.(main := Sending(Written, text))).(log := s.log + [ChatMessage(k.pid, text)])
    case Stopping(_) =>
      Put(s, c, k.(main := Stopping(Written))).(log := s.log + [LeaveNotice(k.pid)])
  }

  function Apply(s: State, a: Step): State
    requires Enabled(s, a)
  {
    var c := a.c;
    var k := s.clients[c];
    match a
    case LockToStart(_) => Put(s, c, k.(main := Starting(Locked))).(holder := MainOf(c))
    case LockToSend(_, text) => Put(s, c, k.(main := Sending(Locked, text))).(holder := MainOf(c))
    case LockToStop(_) => Put(s, c, k.(main := Stopping(Locked))).(holder := MainOf(c))
    case Write(_) => WriteEntry(s, c)
    case Announce(_) =>
      var woken := Woken(s.clients);
      s.(clients := woken[c := woken[c].(main := k.main.(st := Announced))])
    case Release(_) =>
      var k' := match k.main
        case Starting(_) => k.(main := Running, reader := Top)
        case Sending(_, _) => k.(main := Running)
        case Stopping(_) => k.(main := Joining);
      Put(s, c, k').(holder := Nobody)
    case RequestStop(_) => Put(s, c, k.(main := StopRequested, stop := true))
    case JoinReader(_) => Put(s, c, k.(main := Gone))
    case TestStop(_) => Put(s, c, k.(reader := if k.stop then Finished else Locking))
    case ReaderLock(_) => Put(s, c, k.(reader := Testing)).(holder := ReaderOf(c))
    case TestWait(_) =>
      if k.last >= |s.log| then Put(s, c, k.(reader := Asleep)).(holder := Nobody)
      else Put(s, c, k.(reader := Draining))
    case WakeUp(_) => Put(s, c, k.(reader := Waking))
    case TakeRoster(_) => Put(s, c, k.(reader := RosterDone, roster := RosterStep(k.roster, Line(s.log[k.last]))))
    case TakeLine(_) =>
      Put(s, c, k.(reader := LineDone, lines := WindowStep(k.lines, Line(s.log[k.last]))))
    case CountEntry(_) => Put(s, c, k.(reader := Draining, last := k.last + 1))
    case ReaderUnlock(_) => Put(s, c, k.(reader := Top)).(holder := Nobody)
  }

  // ---------- runs ----------

  ghost predicate IsRun(s: State, steps: seq<Step>)
    decreases |steps|
  {
    steps == [] || (Enabled(s, steps[0]) && IsRun(Apply(s, steps[0]), steps[1..]))
  }

  ghost function After(s: State, steps: seq<Step>): State
    requires IsRun(s, steps)
    decreases |steps|
  {
    if steps == [] then s else After(Apply(s, steps[0]), steps[1..])
  }

  // ---------- the invariant ----------

  /** How many entries have reached the roster and the lines. */
  function Rostered(k: Client): nat {
    if k.reader == RosterDone || k.reader == LineDone then k.last + 1 else k.last
  }

  function Lined(k: Client): nat {
    if k.reader == LineDone then k.last + 1 else k.last
  }

  predicate MayWait(pc: ReaderPc) {
    pc in {Locking, Testing, Asleep, Waking}
  }

  /** The client has appended its own "left" entry. */
  predicate LeftLogged(k: Client) {
    (k.main.Stopping? && k.main.st != Locked) || k.main == Joining || k.main == Gone
  }

  /** A writer has appended but not yet broadcast. */
  predicate Unannounced(s: State) {
    s.holder.MainOf? && s.holder.c < |s.clients| &&
    var pc := s.clients[s.holder.c].main;
    InSection(pc) && pc.st == Written
  }

  ghost predicate ClientInv(s: State, c: nat)
    requires c < |s.clients|
  {
    var k := s.clients[c];
    && (InSection(k.main) <==> s.holder == MainOf(c))
    && (HoldsLock(k.reader) <==> s.holder == ReaderOf(c))
    && (k.reader == NotCreated <==> k.main == Fresh || k.main.Starting?)
    && (k.main == Gone ==> k.reader == Finished)
    && (k.stop <==> k.main == StopRequested || k.main.Stopping? || k.main == Joining || k.main == Gone)
    && (k.reader == Finished ==> k.stop)
    && Rostered(k) <= |s.log|
    && (k.reader == Asleep && k.last < |s.log| ==> Unannounced(s))
    && (LeftLogged(k) && MayWait(k.reader) ==> k.last < |s.log|)
  }

  /** Who holds the lock, who may sleep, who has stopped. */
  ghost predicate Control(s: State) {
    && |s.log| <= MAX_MESSAGES
    && (s.holder == Nobody || s.holder.c < |s.clients|)
    && forall c :: 0 <= c < |s.clients| ==> ClientInv(s, c)
  }

  ghost predicate ViewInv(log: seq<Message>, k: Client) {
    && Rostered(k) <= |log|
    && k.roster == RosterOf(log[..Rostered(k)])
    && k.lines == WindowOf(log[..Lined(k)])
  }

  /** What the readers show. */
  ghost predicate Views(s: State) {
    forall c :: 0 <= c < |s.clients| ==> ViewInv(s.log, s.clients[c])
  }

  /** What the log may hold. */
  ghost predicate Honest(s: State) {
    GenuineLog(s.log) && Joins(s.log) == s.joins <= MAX_CLIENTS
  }

  ghost predicate Inv(s: State) {
    Control(s) && Views(s) && Honest(s)
  }

  // ---------- every step keeps it ----------

  /** A client that a step does not touch keeps its part of the invariant. */
  lemma Bystander(s: State, s': State, d: nat)
    requires d < |s.clients| && |s'.clients| == |s.clients| && s'.clients[d] == s.clients[d]
    requires ClientInv(s, d)
    requires |s.log| <= |s'.log|
    requires s'.holder == MainOf(d) <==> s.holder == MainOf(d)
    requires s'.holder == ReaderOf(d) <==> s.holder == ReaderOf(d)
    requires s.clients[d].reader == Asleep && s.clients[d].last < |s'.log| ==> Unannounced(s')
    ensures ClientInv(s', d)
  {
  }

  predicate IsMainStep(a: Step) {
    a.LockToStart? || a.LockToSend? || a.LockToStop? || a.Write? || a.Release? || a.RequestStop? || a.JoinReader?
  }

  lemma MainKeepsControl(s: State, a: Step)
    requires Control(s) && Enabled(s, a) && IsMainStep(a)
    ensures Control(Apply(s, a))
  {
    var c, s' := a.c, Apply(s, a);
    assert ClientInv(s, c);
    assert a.Write? ==> Unannounced(s');
    forall d | 0 <= d < |s'.clients| ensures ClientInv(s', d) {
      assert ClientInv(s, d);
      if d != c {
        Bystander(s, s', d);
      } else {
        OwnMainKeepsControl(s, a);
      }
    }
  }

  lemma OwnMainKeepsControl(s: State, a: Step)
    requires Enabled(s, a) && IsMainStep(a) && ClientInv(s, a.c) && |s.log| <= MAX_MESSAGES
    ensures ClientInv(Apply(s, a), a.c)
  {
  }

  lemma AnnounceKeepsControl(s: State, a: Step)
    requires Control(s) && Enabled(s, a) && a.Announce?
    ensures Control(Apply(s, a))
  {
    var s' := Apply(s, a);
    assert ClientInv(s, a.c);
    forall d | 0 <= d < |s'.clients| ensures ClientInv(s', d) {
      assert ClientInv(s, d);
    }
  }

  lemma ReaderKeepsControl(s: State, a: Step)
    requires Control(s) && Enabled(s, a) && !IsMainStep(a) && !a.Announce?
    ensures Control(Apply(s, a))
  {
    var c, s' := a.c, Apply(s, a);
    assert ClientInv(s, c);
    assert s'.log == s.log;
    forall d | 0 <= d < |s'.clients| ensures ClientInv(s', d) {
      assert ClientInv(s, d);
      if d != c {
        assert Unannounced(s) <==> Unannounced(s');
        Bystander(s, s', d);
      } else {
        OwnStepKeepsControl(s, a);
      }
    }
  }

  lemma OwnStepKeepsControl(s: State, a: Step)
    requires Enabled(s, a) && !IsMainStep(a) && !a.Announce? && ClientInv(s, a.c)
    ensures ClientInv(Apply(s, a), a.c)
  {
  }

  lemma StepKeepsControl(s: State, a: Step)
    requires Control(s) && Enabled(s, a)
    ensures Control(Apply(s, a))
  {
    if a.Announce? {
      AnnounceKeepsControl(s, a);
    } else if IsMainStep(a) {
      MainKeepsControl(s, a);
    } else {
      ReaderKeepsControl(s, a);
    }
  }

  ghost predicate SameView(k: Client, k': Client) {
    k'.roster == k.roster && k'.lines == k.lines && Rostered(k') == Rostered(k) && Lined(k') == Lined(k)
  }

  lemma MainAndView(s: State, a: Step, d: nat)
    requires Enabled(s, a) && (IsMainStep(a) || a.Announce?) && d < |s.clients| && ClientInv(s, a.c)
    ensures |Apply(s, a).clients| == |s.clients| && s.log <= Apply(s, a).log
    ensures SameView(s.clients[d], Apply(s, a).clients[d])
  {
  }

  /** What a step does to one client, as far as its view goes. */
  lemma StepAndView(s: State, a: Step, d: nat)
    requires Enabled(s, a) && d < |s.clients| && ClientInv(s, a.c)
    ensures |Apply(s, a).clients| == |s.clients|
    ensures s.log <= Apply(s, a).log
    ensures var k, k' := s.clients[d], Apply(s, a).clients[d];
            if a == TakeRoster(d) then k' == k.(reader := RosterDone, roster := RosterStep(k.roster, Line(s.log[k.last])))
            else if a == TakeLine(d) then k' == k.(reader := LineDone, lines := WindowStep(k.lines, Line(s.log[k.last])))
            else SameView(k, k')
  {
    if IsMainStep(a) || a.Announce? {
      MainAndView(s, a, d);
    } else {
      OnlyWritesWrite(s, a);
    }
  }

  lemma TakeKeepsView(log: seq<Message>, k: Client)
    requires ViewInv(log, k) && k.last < |log|
    ensures k.reader == Draining ==>
              ViewInv(log, k.(reader := RosterDone, roster := RosterStep(k.roster, Line(log[k.last]))))
    ensures k.reader == RosterDone ==>
              ViewInv(log, k.(reader := LineDone, lines := WindowStep(k.lines, Line(log[k.last]))))
  {
    var upTo := log[..k.last + 1];
    assert upTo[..|upTo| - 1] == log[..k.last];
  }

  lemma StepKeepsViews(s: State, a: Step)
    requires Control(s) && Views(s) && Enabled(s, a)
    ensures Views(Apply(s, a))
  {
    var s' := Apply(s, a);
    assert ClientInv(s, a.c);
    forall d | 0 <= d < |s'.clients| ensures ViewInv(s'.log, s'.clients[d]) {
      StepAndView(s, a, d);
      var k := s.clients[d];
      assert ViewInv(s.log, k);
      if a == TakeRoster(d) || a == TakeLine(d) {
        TakeKeepsView(s.log, k);
      } else {
        assert s'.log[..Rostered(k)] == s.log[..Rostered(k)];
        assert s'.log[..Lined(k)] == s.log[..Lined(k)];
      }
    }
  }

  lemma OnlyWritesWrite(s: State, a: Step)
    requires Enabled(s, a) && !a.Write?
    ensures Apply(s, a).log == s.log && Apply(s, a).joins == s.joins
  {
  }

  lemma StepKeepsHonest(s: State, a: Step)
    requires Honest(s) && Enabled(s, a)
    ensures Honest(Apply(s, a))
  {
    if a.Write? {
      var k := s.clients[a.c];
      AppendsCount(s.log, k.pid, if k.main.Sending? then k.main.text else "");
    } else {
      OnlyWritesWrite(s, a);
    }
  }

  lemma StepKeepsInv(s: State, a: Step)
    requires Inv(s) && Enabled(s, a)
    ensures Inv(Apply(s, a))
  {
    StepKeepsControl(s, a);
    StepKeepsViews(s, a);
    StepKeepsHonest(s, a);
  }

  lemma {:induction false} RunKeepsInv(s: State, steps: seq<Step>)
    requires Inv(s) && IsRun(s, steps)
    ensures Inv(After(s, steps))
    decreases |steps|
  {
    if steps != [] {
      StepKeepsInv(s, steps[0]);
      RunKeepsInv(Apply(s, steps[0]), steps[1..]);
    }
  }

  lemma ReachableInv(s: State, steps: seq<Step>)
    requires Init(s) && IsRun(s, steps)
    ensures Inv(After(s, steps))
  {
    RunKeepsInv(s, steps);
  }

  // ---------- what holds in every reachable state ----------

  /** A reader between entries shows the last 1000 lines of what it has consumed. */
  lemma ShownIsTail(s: State, steps: seq<Step>, c: nat)
    requires Init(s) && IsRun(s, steps) && c < |After(s, steps).clients|
    requires After(s, steps).clients[c].reader !in {RosterDone, LineDone}
    ensures var t := After(s, steps); var k := t.clients[c];
            && k.last <= |t.log|
            && k.lines == Lines(t.log)[if k.last <= MAX_LINES then 0 else k.last - MAX_LINES..k.last]
  {
    ReachableInv(s, steps);
    var t := After(s, steps);
    assert ViewInv(t.log, t.clients[c]);
    ViewIsTail(t.log, t.clients[c]);
  }

  lemma ViewIsTail(log: seq<Message>, k: Client)
    requires ViewInv(log, k) && k.reader !in {RosterDone, LineDone}
    ensures k.last <= |log|
    ensures k.lines == Lines(log)[if k.last <= MAX_LINES then 0 else k.last - MAX_LINES..k.last]
  {
    assert Lined(k) == k.last;
    TailOfPrefix(log, k.last);
  }

  lemma TailOfPrefix(log: seq<Message>, n: nat)
    requires n <= |log|
    ensures WindowOf(log[..n]) == Lines(log)[if n <= MAX_LINES then 0 else n - MAX_LINES..n]
  {
    WindowIsTail(log[..n]);
    assert Lines(log[..n]) == Lines(log)[..n];
  }

  /** Two readers that have consumed equally much show the same lines and the same roster. */
  lemma ReadersAgree(s: State, steps: seq<Step>, c: nat, d: nat)
    requires Init(s) && IsRun(s, steps) && c < |After(s, steps).clients| && d < |After(s, steps).clients|
    requires var t := After(s, steps);
             && t.clients[c].last == t.clients[d].last
             && t.clients[c].reader !in {RosterDone, LineDone} && t.clients[d].reader !in {RosterDone, LineDone}
    ensures var t := After(s, steps);
            t.clients[c].lines == t.clients[d].lines && t.clients[c].roster == t.clients[d].roster
  {
    ReachableInv(s, steps);
    var t := After(s, steps);
    assert ViewInv(t.log, t.clients[c]) && ViewInv(t.log, t.clients[d]);
  }

  lemma {:induction false} JoinsOfPrefix(log: seq<Message>, n: nat)
    requires n <= |log|
    ensures Joins(log[..n]) <= Joins(log)
    decreases |log|
  {
    if n < |log| {
      JoinsOfPrefix(log[..|log| - 1], n);
      assert log[..|log| - 1][..n] == log[..n];
    } else {
      assert log[..n] == log;
    }
  }

  /** At every moment of every run a reader's roster holds, without duplicates, exactly the
      clients whose latest notice in the consumed part of the log is "joined". */
  lemma RosterAlwaysExact(s: State, steps: seq<Step>, c: nat)
    requires Init(s) && IsRun(s, steps) && c < |After(s, steps).clients|
    ensures var t := After(s, steps); var k := t.clients[c];
            Rostered(k) <= |t.log| && ExactRoster(k.roster, t.log[..Rostered(k)]) && |k.roster| <= MAX_CLIENTS
  {
    ReachableInv(s, steps);
    var t := After(s, steps);
    assert ViewInv(t.log, t.clients[c]);
    JoinsOfPrefix(t.log, Rostered(t.clients[c]));
    RosterIsExact(t.log[..Rostered(t.clients[c])]);
  }

  /** No lost wakeup: whoever sleeps with something unread is about to be woken by the
      writer that holds the lock. */
  lemma NoLostWakeup(s: State, steps: seq<Step>, c: nat)
    requires Init(s) && IsRun(s, steps) && c < |After(s, steps).clients|
    requires var t := After(s, steps); t.clients[c].reader == Asleep && t.clients[c].last < |t.log|
    ensures var t := After(s, steps);
            && t.holder.MainOf? && Enabled(t, Announce(t.holder.c))
            && Apply(t, Announce(t.holder.c)).clients[c].reader == Waking
  {
    ReachableInv(s, steps);
    var t := After(s, steps);
    assert ClientInv(t, c);
    assert ClientInv(t, t.holder.c);
  }

  /** A reader gives up the lock only when it has shown the whole log. */
  lemma ReleasedWhenRead(s: State, steps: seq<Step>, a: Step)
    requires Init(s) && IsRun(s, steps) && Enabled(After(s, steps), a)
    requires var t := After(s, steps); t.holder == ReaderOf(a.c) && Apply(t, a).holder != t.holder
    ensures var t := After(s, steps); a.c < |t.clients| && t.clients[a.c].last == |t.log|
  {
    ReachableInv(s, steps);
    var t := After(s, steps);
    assert ClientInv(t, a.c);
  }

  /** It goes to sleep exactly when there is nothing left to read. */
  lemma SleepsWhenRead(s: State, steps: seq<Step>, c: nat)
    requires Init(s) && IsRun(s, steps) && Enabled(After(s, steps), TestWait(c))
    ensures var t := After(s, steps);
            Apply(t, TestWait(c)).clients[c].reader == (if t.clients[c].last == |t.log| then Asleep else Draining)
  {
    ReachableInv(s, steps);
    assert ClientInv(After(s, steps), c);
  }

  // ---------- shutdown ----------

  /** Once a client has logged its "left", its reader never again finds the wait condition
      true. */
  lemma NeverWaitsAgain(s: State, steps: seq<Step>, c: nat)
    requires Init(s) && IsRun(s, steps) && c < |After(s, steps).clients|
    requires var t := After(s, steps); LeftLogged(t.clients[c]) && Enabled(t, TestWait(c))
    ensures var t := After(s, steps);
            t.clients[c].last < |t.log| && Apply(t, TestWait(c)).clients[c].reader == Draining
  {
    ReachableInv(s, steps);
    assert ClientInv(After(s, steps), c);
  }

  predicate OwnReaderStep(a: Step, c: nat) {
    a.c == c &&
    (a.TestStop? || a.ReaderLock? || a.TestWait? || a.WakeUp? || a.TakeRoster? || a.TakeLine? || a.CountEntry? || a.ReaderUnlock?)
  }

  /** How many more steps a reader that must stop can take. */
  function StepsLeft(k: Client): nat {
    8 * (if k.last <= MAX_MESSAGES then MAX_MESSAGES - k.last else 0) +
    match k.reader
    case NotCreated => 9
    case Asleep => 8
    case Waking => 7
    case Locking => 7
    case Testing => 6
    case Draining => 5
    case RosterDone => 4
    case LineDone => 3
    case Top => 2
    case Finished => 0
  }

  /** The reader of a client that has logged its "left" finishes after a bounded number of
      its own steps, whatever the other threads do in between. */
  lemma ShutdownEnds(s: State, a: Step, c: nat)
    requires Control(s) && Enabled(s, a) && c < |s.clients| && LeftLogged(s.clients[c])
    ensures LeftLogged(Apply(s, a).clients[c])
    ensures StepsLeft(Apply(s, a).clients[c]) <= StepsLeft(s.clients[c])
    ensures OwnReaderStep(a, c) ==> StepsLeft(Apply(s, a).clients[c]) < StepsLeft(s.clients[c])
  {
    assert ClientInv(s, c);
    assert ClientInv(s, a.c);
    if OwnReaderStep(a, c) {
      OwnStepLowers(s, a, c);
    } else {
      OtherStepKeeps(s, a, c);
    }
  }

  lemma OwnStepLowers(s: State, a: Step, c: nat)
    requires Enabled(s, a) && OwnReaderStep(a, c) && ClientInv(s, c) && LeftLogged(s.clients[c])
    requires |s.log| <= MAX_MESSAGES
    ensures LeftLogged(Apply(s, a).clients[c])
    ensures StepsLeft(Apply(s, a).clients[c]) < StepsLeft(s.clients[c])
  {
  }

  lemma OtherStepKeeps(s: State, a: Step, c: nat)
    requires Enabled(s, a) && !OwnReaderStep(a, c) && c < |s.clients| && ClientInv(s, c)
    requires LeftLogged(s.clients[c])
    ensures LeftLogged(Apply(s, a).clients[c])
    ensures StepsLeft(Apply(s, a).clients[c]) <= StepsLeft(s.clients[c])
  {
  }

  ghost function OwnSteps(steps: seq<Step>, c: nat): nat {
    if steps == [] then 0 else OwnSteps(steps[1..], c) + if OwnReaderStep(steps[0], c) then 1 else 0
  }

  lemma {:induction false} ShutdownBounded(s: State, steps: seq<Step>, c: nat)
    requires Control(s) && IsRun(s, steps) && c < |s.clients| && LeftLogged(s.clients[c])
    ensures OwnSteps(steps, c) <= StepsLeft(s.clients[c])
    decreases |steps|
  {
    if steps != [] {
      ShutdownEnds(s, steps[0], c);
      StepKeepsControl(s, steps[0]);
      ShutdownBounded(Apply(s, steps[0]), steps[1..], c);
    }
  }

  /** The step a reader takes by itself, without waiting to be woken. */
  function NextOfReader(s: State, c: nat): Step
    requires c < |s.clients|
  {
    var k := s.clients[c];
    match k.reader
    case Top => TestStop(c)
    case Testing => TestWait(c)
    case Draining => if k.last < |s.log| then TakeRoster(c) else ReaderUnlock(c)
    case RosterDone => TakeLine(c)
    case LineDone => CountEntry(c)
    case _ => ReaderLock(c)
  }

  /** The step of the thread that holds the lock. */
  function NextOfHolder(s: State): Step
    requires s.holder != Nobody && s.holder.c < |s.clients|
  {
    var c := s.holder.c;
    var pc := s.clients[c].main;
    if s.holder.ReaderOf? then NextOfReader(s, c)
    else if InSection(pc) && pc.st == Locked then Write(c)
    else if InSection(pc) && pc.st == Written then Announce(c)
    else Release(c)
  }

  /** Whoever holds the lock can go on, as long as the log has room. */
  lemma HolderCanStep(s: State)
    requires Control(s) && s.holder != Nobody && |s.log| < MAX_MESSAGES
    ensures Enabled(s, NextOfHolder(s)) && ByHolder(s, NextOfHolder(s))
  {
    assert ClientInv(s, s.holder.c);
  }

  predicate ByHolder(s: State, a: Step) {
    match s.holder
    case Nobody => false
    case MainOf(c) => a.c == c && (a.Write? || a.Announce? || a.Release?)
    case ReaderOf(c) => OwnReaderStep(a, c)
  }

  /** How many more steps the holder can take before it gives the lock back. */
  function HoldLeft(s: State): nat
    requires s.holder != Nobody ==> s.holder.c < |s.clients|
  {
    match s.holder
    case Nobody => 0
    case MainOf(c) =>
      var pc := s.clients[c].main;
      if InSection(pc) && pc.st == Locked then 3 else if InSection(pc) && pc.st == Written then 2 else 1
    case ReaderOf(c) =>
      var k := s.clients[c];
      3 * (if k.last <= |s.log| then |s.log| - k.last else 0) +
      match k.reader
      case Testing => 3
      case Draining => 2
      case RosterDone => 1
      case _ => 0
  }

  /** Nobody keeps the lock: each step of its holder brings its release nearer, and no step of
      another thread puts it off. */
  lemma LockIsReturned(s: State, a: Step)
    requires Control(s) && Enabled(s, a) && s.holder != Nobody
    ensures var s' := Apply(s, a);
            || s'.holder == Nobody
            || (&& s'.holder == s.holder && |s'.clients| == |s.clients|
                && HoldLeft(s') <= HoldLeft(s) && (ByHolder(s, a) ==> HoldLeft(s') < HoldLeft(s)))
  {
    assert ClientInv(s, a.c);
    assert ClientInv(s, s.holder.c);
    if ByHolder(s, a) {
      HolderStepLowers(s, a);
    }
  }

  lemma HolderStepLowers(s: State, a: Step)
    requires Enabled(s, a) && s.holder != Nobody && s.holder.c < |s.clients| && ByHolder(s, a) && ClientInv(s, a.c)
    ensures var s' := Apply(s, a);
            s'.holder == Nobody || (s'.holder == s.holder && |s'.clients| == |s.clients| && HoldLeft(s') < HoldLeft(s))
  {
  }

  /** A reader that must stop is never stuck: it has finished, or can take a step without
      waiting to be woken, or another thread has the lock and can take a step towards giving it
      back. */
  lemma ShutdownNeverStuck(s: State, c: nat)
    requires Control(s) && c < |s.clients| && LeftLogged(s.clients[c]) && |s.log| < MAX_MESSAGES
    ensures || s.clients[c].reader == Finished
            || (&& OwnReaderStep(NextOfReader(s, c), c) && !NextOfReader(s, c).WakeUp?
                && Enabled(s, NextOfReader(s, c)))
            || (&& s.holder != Nobody && s.holder != ReaderOf(c) && s.holder.c < |s.clients|
                && ByHolder(s, NextOfHolder(s)) && Enabled(s, NextOfHolder(s)))
  {
    assert ClientInv(s, c);
    if s.holder != Nobody {
      HolderCanStep(s);
    }
  }
}
