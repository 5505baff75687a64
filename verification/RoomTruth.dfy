/** What the log of the shared-memory chat room says about its clients: who is in the room, and
    what each of them has said. */
module RoomTruth {
  import opened CText
  import opened RoomLog
  import opened RoomProtocol

  // ---------- the text of the entries ----------

  /** What a critical section logs, word for word. */
  lemma EntriesRead(s: State, c: nat)
    requires Enabled(s, Write(c))
    ensures var k := s.clients[c]; var log' := Apply(s, Write(c)).log;
            match k.main
            case Starting(_) =>
              log' == if s.joins < 256 then s.log + [Message("SERVER", "User " + Decimal(k.pid) + " joined")] else s.log
            case Sending(_, text) =>
              log' == s.log + [Message("Client_" + Decimal(k.pid), if |text| <= 1023 then text else text[..1023])]
            case _ => log' == s.log + [Message("SERVER", "User " + Decimal(k.pid) + " left")]
  {
  }

  ghost predicate DistinctPids(s: State) {
    forall c, d :: 0 <= c < d < |s.clients| ==> s.clients[c].pid != s.clients[d].pid
  }

  lemma StepKeepsPids(s: State, a: Step)
    requires Enabled(s, a)
    ensures |Apply(s, a).clients| == |s.clients|
    ensures forall c :: 0 <= c < |s.clients| ==> Apply(s, a).clients[c].pid == s.clients[c].pid
  {
  }

  // ---------- who is in the room ----------

  /** The client has been through the critical section of its start. */
  predicate StartWritten(k: Client) {
    k.main != Fresh && !(k.main.Starting? && k.main.st == Locked)
  }

  ghost predicate ToldOf(log: seq<Message>, pid: nat) {
    JoinNotice(pid) in log
  }

  /** The log calls a client present exactly from its join notice to its leave notice, and it has
      the join notice of every client that started, up to the 256th. */
  ghost predicate TruthAt(s: State, c: nat)
    requires c < |s.clients|
  {
    var k := s.clients[c];
    && (Present(s.log, k.pid) <==> ToldOf(s.log, k.pid) && !LeftLogged(k))
    && (ToldOf(s.log, k.pid) ==> StartWritten(k))
    && (StartWritten(k) && s.joins < MAX_CLIENTS ==> ToldOf(s.log, k.pid))
  }

  ghost predicate Truth(s: State) {
    forall c :: 0 <= c < |s.clients| ==> TruthAt(s, c)
  }

  lemma ChatMakesNoDifference(init: seq<Message>, p: nat, text: string, pid: nat)
    ensures Present(init + [ChatMessage(p, text)], pid) <==> Present(init, pid)
    ensures ToldOf(init + [ChatMessage(p, text)], pid) <==> ToldOf(init, pid)
  {
    var log := init + [ChatMessage(p, text)];
    assert log[..|log| - 1] == init;
    NoticesDiffer(p, pid, text);
  }

  lemma JoinTells(init: seq<Message>, p: nat, pid: nat)
    ensures Present(init + [JoinNotice(p)], pid) <==> pid == p || Present(init, pid)
    ensures ToldOf(init + [JoinNotice(p)], pid) <==> pid == p || ToldOf(init, pid)
  {
    JoinMakesPresent(init, p, pid);
    NoticesDiffer(p, pid, "");
  }

  lemma LeaveTells(init: seq<Message>, p: nat, pid: nat)
    ensures Present(init + [LeaveNotice(p)], pid) <==> pid != p && Present(init, pid)
    ensures ToldOf(init + [LeaveNotice(p)], pid) <==> ToldOf(init, pid)
  {
    LeaveMakesAbsent(init, p, pid);
    NoticesDiffer(pid, p, "");
  }

  lemma WriteKeepsTruth(s: State, c: nat, d: nat)
    requires Enabled(s, Write(c)) && DistinctPids(s) && d < |s.clients| && TruthAt(s, d) && TruthAt(s, c)
    requires !LeftLogged(s.clients[c])
    ensures TruthAt(Apply(s, Write(c)), d)
  {
    var k, pid := s.clients[c], s.clients[d].pid;
    match k.main {
      case Starting(_) => JoinTells(s.log, k.pid, pid);
      case Sending(_, text) => ChatMakesNoDifference(s.log, k.pid, text, pid);
      case _ => LeaveTells(s.log, k.pid, pid);
    }
    assert c != d ==> k.pid != pid;
  }

  lemma OtherKeepsTruth(s: State, a: Step, d: nat)
    requires Enabled(s, a) && !a.Write? && d < |s.clients| && TruthAt(s, d)
    ensures |Apply(s, a).clients| == |s.clients| && TruthAt(Apply(s, a), d)
  {
    OnlyWritesWrite(s, a);
    OtherKeepsStanding(s, a, d);
  }

  /** Only a write changes what the log should say of a client. */
  lemma OtherKeepsStanding(s: State, a: Step, d: nat)
    requires Enabled(s, a) && !a.Write? && d < |s.clients|
    ensures |Apply(s, a).clients| == |s.clients|
    ensures var k, k' := s.clients[d], Apply(s, a).clients[d];
            k'.pid == k.pid && (StartWritten(k') <==> StartWritten(k)) && (LeftLogged(k') <==> LeftLogged(k))
  {
  }

  lemma StepKeepsTruth(s: State, a: Step)
    requires Control(s) && DistinctPids(s) && Truth(s) && Enabled(s, a)
    ensures Truth(Apply(s, a)) && DistinctPids(Apply(s, a))
  {
    StepKeepsPids(s, a);
    forall d | 0 <= d < |s.clients| ensures TruthAt(Apply(s, a), d) {
      assert TruthAt(s, d);
      if a.Write? {
        assert TruthAt(s, a.c);
        WriteKeepsTruth(s, a.c, d);
      } else {
        OtherKeepsTruth(s, a, d);
      }
    }
  }

  lemma {:induction false} RunKeepsTruth(s: State, steps: seq<Step>)
    requires Control(s) && DistinctPids(s) && Truth(s) && IsRun(s, steps)
    ensures Truth(After(s, steps))
    decreases |steps|
  {
    if steps != [] {
      StepKeepsControl(s, steps[0]);
      StepKeepsTruth(s, steps[0]);
      RunKeepsTruth(Apply(s, steps[0]), steps[1..]);
    }
  }

  /** In every reachable state the log is truthful about every client. */
  lemma LogIsTruthful(s: State, steps: seq<Step>, c: nat)
    requires Init(s) && DistinctPids(s) && IsRun(s, steps) && c < |After(s, steps).clients|
    ensures TruthAt(After(s, steps), c)
  {
    RunKeepsTruth(s, steps);
  }

  /** So a reader that has read everything lists exactly the clients that are in the room. */
  lemma RosterShowsTheRoom(s: State, steps: seq<Step>, r: nat, c: nat)
    requires Init(s) && DistinctPids(s) && IsRun(s, steps)
    requires r < |After(s, steps).clients| && c < |After(s, steps).clients|
    requires var t := After(s, steps); t.clients[r].last == |t.log| && t.joins < MAX_CLIENTS
    ensures var t := After(s, steps); var k := t.clients[c];
            "/client_" + Decimal(k.pid) in t.clients[r].roster <==> StartWritten(k) && !LeftLogged(k)
  {
    var t := After(s, steps);
    LogIsTruthful(s, steps, c);
    RosterAlwaysExact(s, steps, r);
    assert t.log[..|t.log|] == t.log;
    assert ClientName(Decimal(t.clients[c].pid)) == "/client_" + Decimal(t.clients[c].pid);
  }

  // ---------- what each client has said ----------

  /** The texts that the log has from a sender. */
  ghost function SaidIn(log: seq<Message>, sender: string): seq<string> {
    if log == [] then []
    else
      var last := log[|log| - 1];
      SaidIn(log[..|log| - 1], sender) + if last.sender == sender then [last.text] else []
  }

  /** What a client has been given to send and not yet logged. */
  ghost function Held(k: Client): seq<string> {
    if k.main.Sending? && k.main.st == Locked then [Cut(k.main.text, 1023)] else []
  }

  /** The text that a step gives a client to send. */
  ghost function GivenBy(a: Step, c: nat): seq<string> {
    if a.LockToSend? && a.c == c then [Cut(a.text, 1023)] else []
  }

  /** The texts that a client was given to send in a run. */
  ghost function Given(steps: seq<Step>, c: nat): seq<string> {
    if steps == [] then [] else GivenBy(steps[0], c) + Given(steps[1..], c)
  }

  lemma SenderTells(p: nat, pid: nat)
    ensures "Client_" + Decimal(p) == "Client_" + Decimal(pid) <==> p == pid
    ensures "SERVER" != "Client_" + Decimal(pid)
  {
    var a, b := "Client_" + Decimal(p), "Client_" + Decimal(pid);
    assert a[7..] == Decimal(p) && b[7..] == Decimal(pid);
    if a == b {
      DecimalInjective(p, pid);
    }
    assert b[0] == 'C' && "SERVER"[0] == 'S';
  }

  lemma SaidInGrows(log: seq<Message>, m: Message, sender: string)
    ensures SaidIn(log + [m], sender) == SaidIn(log, sender) + if m.sender == sender then [m.text] else []
  {
    assert (log + [m])[..|log|] == log;
  }

  /** Who the entry of a critical section is from. */
  lemma EntryFrom(s: State, c: nat, sender: string, pid: nat)
    requires Enabled(s, Write(c)) && sender == "Client_" + Decimal(pid)
    ensures var k := s.clients[c]; var log' := Apply(s, Write(c)).log;
            SaidIn(log', sender) == SaidIn(s.log, sender) + if k.pid == pid then Held(k) else []
  {
    var k := s.clients[c];
    SenderTells(k.pid, pid);
    match k.main {
      case Starting(_) => SaidInGrows(s.log, JoinNotice(k.pid), sender);
      case Sending(_, text) => SaidInGrows(s.log, ChatMessage(k.pid, text), sender);
      case _ => SaidInGrows(s.log, LeaveNotice(k.pid), sender);
    }
  }

  /** A write empties the hand of its client and of nobody else. */
  lemma WriteTakes(s: State, c: nat, d: nat)
    requires Enabled(s, Write(c)) && d < |s.clients|
    ensures |Apply(s, Write(c)).clients| == |s.clients|
    ensures Held(Apply(s, Write(c)).clients[d]) == if c == d then [] else Held(s.clients[d])
  {
  }

  lemma OtherGives(s: State, a: Step, d: nat)
    requires Enabled(s, a) && !a.Write? && d < |s.clients|
    ensures Apply(s, a).log == s.log && |Apply(s, a).clients| == |s.clients|
    ensures Held(Apply(s, a).clients[d]) == Held(s.clients[d]) + GivenBy(a, d)
  {
    OnlyWritesWrite(s, a);
  }

  /** What is in the log from a client, and in its hand. */
  ghost function Account(s: State, c: nat, sender: string): seq<string>
    requires c < |s.clients|
  {
    SaidIn(s.log, sender) + Held(s.clients[c])
  }

  /** What is in the log and in the hand of a client grows by what a step gives it. */
  lemma StepKeepsSaid(s: State, a: Step, c: nat, sender: string)
    requires Enabled(s, a) && DistinctPids(s) && c < |s.clients| && sender == "Client_" + Decimal(s.clients[c].pid)
    ensures |Apply(s, a).clients| == |s.clients|
    ensures Account(Apply(s, a), c, sender) == Account(s, c, sender) + GivenBy(a, c)
  {
    if a.Write? {
      WriteTakes(s, a.c, c);
      EntryFrom(s, a.c, sender, s.clients[c].pid);
      assert a.c != c ==> s.clients[a.c].pid != s.clients[c].pid;
    } else {
      OtherGives(s, a, c);
    }
  }

  lemma {:induction false} RunKeepsSaid(s: State, steps: seq<Step>, c: nat, sender: string)
    requires DistinctPids(s) && IsRun(s, steps) && c < |s.clients| && sender == "Client_" + Decimal(s.clients[c].pid)
    ensures |After(s, steps).clients| == |s.clients|
    ensures Account(After(s, steps), c, sender) == Account(s, c, sender) + Given(steps, c)
    decreases |steps|
  {
    if steps != [] {
      StepKeepsPids(s, steps[0]);
      StepKeepsSaid(s, steps[0], c, sender);
      RunKeepsSaid(Apply(s, steps[0]), steps[1..], c, sender);
      Reassociate(Account(s, c, sender), GivenBy(steps[0], c), Given(steps[1..], c));
    }
  }

  lemma Reassociate(a: seq<string>, b: seq<string>, c: seq<string>)
    ensures (a + b) + c == a + (b + c)
  {
  }

  /** Nothing a client says is lost, doubled, changed or overtaken: the log has from each client
      exactly the texts it was given to send, in order, the last one possibly still on its way. */
  lemma EverythingSaidIsLogged(s: State, steps: seq<Step>, c: nat)
    requires Init(s) && DistinctPids(s) && IsRun(s, steps) && c < |s.clients|
    ensures |After(s, steps).clients| == |s.clients|
    ensures SaidIn(After(s, steps).log, "Client_" + Decimal(s.clients[c].pid)) + Held(After(s, steps).clients[c])
            == Given(steps, c)
  {
    RunKeepsSaid(s, steps, c, "Client_" + Decimal(s.clients[c].pid));
  }
}
