/** The message-queue chat server as a function of the messages it receives, and the promise
    it makes to its clients: delivery without gaps. */
module ChatSpec {
  import opened Basics
  import opened CText

  const HISTORY := 256
  const NAME_LEN := 63
  const TEXT_LEN := 1023
  const PID_LEN := 31

  /** One entry of the global event log. */
  datatype Entry = Entry(sender: string, text: string)

  /** The bytes sent for an entry. */
  function Wire(e: Entry): string {
    e.sender + ":" + e.text
  }

  /** What the history keeps of an entry. */
  function Stored(e: Entry): Entry {
    Entry(Cut(e.sender, NAME_LEN), Cut(e.text, TEXT_LEN))
  }

  // ---------- what arrives ----------

  /** A message on the server's queue, and whether the client's queue could be opened. */
  datatype Input = Input(buf: string, canOpen: bool)

  datatype Command = Join(pid: string) | Chat(pid: string, text: string) | Leave(pid: string) | Unknown

  function IndexOfChar(s: string, c: char): (k: nat)
    ensures k <= |s|
    ensures k < |s| ==> s[k] == c
    ensures forall i :: 0 <= i < k ==> s[i] != c
  {
    if s == [] || s[0] == c then 0 else 1 + IndexOfChar(s[1..], c)
  }

  /** What follows "MSG:": the pid up to the first colon, then the text. */
  function ParseMsg(p: string): Command {
    var k := IndexOfChar(p, ':');
    if k < |p| then Chat(Cut(p[..k], PID_LEN), p[k + 1..]) else Unknown
  }

  function Parse(buf: string): Command {
    if "JOIN:" <= buf then Join(Cut(buf[5..], PID_LEN))
    else if "MSG:" <= buf then ParseMsg(buf[4..])
    else if "LEAVE:" <= buf then Leave(Cut(buf[6..], PID_LEN))
    else Unknown
  }

  function QueueName(pid: string): string {
    "/client_" + pid
  }

  // ---------- the server as a value ----------

  datatype Server = Server(log: seq<Entry>, names: seq<string>, queues: map<string, seq<string>>)

  function Box(queues: map<string, seq<string>>, q: string): seq<string> {
    if q in queues then queues[q] else []
  }

  /** Everybody in `names` gets one more message. */
  function Deliver(queues: map<string, seq<string>>, names: seq<string>, line: string): map<string, seq<string>> {
    map q | q in queues.Keys + (set n | n in names) :: Box(queues, q) + if q in names then [line] else []
  }

  function SendAll(queues: map<string, seq<string>>, q: string, lines: seq<string>): map<string, seq<string>> {
    queues[q := Box(queues, q) + lines]
  }

  function Wires(log: seq<Entry>): (w: seq<string>)
    ensures |w| == |log|
    ensures forall i :: 0 <= i < |log| ==> w[i] == Wire(log[i])
  {
    seq(|log|, i requires 0 <= i < |log| => Wire(log[i]))
  }

  function StoredAll(log: seq<Entry>): (s: seq<Entry>)
    ensures |s| == |log|
    ensures forall i :: 0 <= i < |log| ==> s[i] == Stored(log[i])
  {
    seq(|log|, i requires 0 <= i < |log| => Stored(log[i]))
  }

  function From(n: nat): nat {
    if n <= HISTORY then 0 else n - HISTORY
  }

  function Recent(log: seq<Entry>): seq<Entry> {
    log[From(|log|)..]
  }

  function Publish(s: Server, e: Entry): Server {
    s.(log := s.log + [e], queues := Deliver(s.queues, s.names, Wire(e)))
  }

  function Unlisted(names: seq<string>, q: string): seq<string> {
    if names == [] then []
    else if names[0] == q then names[1..]
    else [names[0]] + Unlisted(names[1..], q)
  }

  function JoinEntry(pid: string): Entry { Entry("SERVER", "User " + pid + " joined") }
  function LeaveEntry(pid: string): Entry { Entry("SERVER", "User " + pid + " left") }
  function ChatEntry(pid: string, text: string): Entry { Entry("Client_" + pid, text) }

  /** A client is listed, everybody hears of it, and it is sent the recent history. */
  function Joined(s: Server, pid: string): Server {
    var q := QueueName(pid);
    var s1 := s.(names := if q in s.names then s.names else [q] + s.names);
    var s2 := Publish(s1, JoinEntry(pid));
    s2.(queues := SendAll(s2.queues, q, Wires(StoredAll(Recent(s2.log)))))
  }

  function Handle(s: Server, i: Input): Server {
    match Parse(i.buf)
    case Join(pid) =>
      if i.canOpen then Joined(s, pid) else s
    case Chat(pid, text) => Publish(s, ChatEntry(pid, text))
    case Leave(pid) => Publish(s.(names := Unlisted(s.names, QueueName(pid))), LeaveEntry(pid))
    case Unknown => s
  }

  function Run(inputs: seq<Input>): Server {
    if inputs == [] then Server([], [], map[])
    else Handle(Run(inputs[..|inputs| - 1]), inputs[|inputs| - 1])
  }

  /** Received messages are shorter than the server's buffer. */
  predicate Fits(i: Input) {
    |i.buf| <= TEXT_LEN
  }

  // ---------- sessions ----------

  predicate JoinsAs(i: Input, q: string) {
    var c := Parse(i.buf);
    c.Join? && i.canOpen && QueueName(c.pid) == q
  }

  predicate LeavesAs(i: Input, q: string) {
    var c := Parse(i.buf);
    c.Leave? && QueueName(c.pid) == q
  }

  /** The latest input that opens or closes a session of `q`. */
  function LastAbout(inputs: seq<Input>, q: string): (t: Option<nat>)
    ensures t.Some? ==> t.value < |inputs| && (JoinsAs(inputs[t.value], q) || LeavesAs(inputs[t.value], q))
    ensures forall i :: (if t.Some? then t.value < i else 0 <= i) && i < |inputs| ==>
              !JoinsAs(inputs[i], q) && !LeavesAs(inputs[i], q)
  {
    if inputs == [] then None
    else
      var last := inputs[|inputs| - 1];
      if JoinsAs(last, q) || LeavesAs(last, q) then Some(|inputs| - 1)
      else LastAbout(inputs[..|inputs| - 1], q)
  }

  predicate InSession(inputs: seq<Input>, q: string) {
    var t := LastAbout(inputs, q);
    t.Some? && JoinsAs(inputs[t.value], q)
  }

  // ---------- invariants over whole runs ----------

  lemma {:induction false} UnlistedIs(names: seq<string>, q: string)
    requires Distinct(names)
    ensures var r := Unlisted(names, q); Distinct(r) && forall x :: x in r <==> x in names && x != q
  {
    if names != [] {
      var head, tail := names[0], names[1..];
      UnlistedIs(tail, q);
      assert head !in tail;
      assert forall x :: x in names <==> x == head || x in tail;
      if head != q {
        DistinctCons(head, Unlisted(tail, q));
      }
    }
  }

  lemma DistinctCons(x: string, s: seq<string>)
    requires Distinct(s) && x !in s
    ensures Distinct([x] + s)
  {
  }

  /** The registry never lists a client twice and lists exactly those in session. */
  lemma {:induction false} RegistryIsExact(inputs: seq<Input>)
    ensures Distinct(Run(inputs).names)
    ensures forall q :: q in Run(inputs).names <==> InSession(inputs, q)
  {
    if inputs != [] {
      var init, last := inputs[..|inputs| - 1], inputs[|inputs| - 1];
      RegistryIsExact(init);
      var s := Run(init);
      if Parse(last.buf).Leave? {
        UnlistedIs(s.names, QueueName(Parse(last.buf).pid));
      }
      forall q ensures q in Run(inputs).names <==> InSession(inputs, q) {
        assert q in s.names <==> InSession(init, q);
      }
    }
  }

  lemma DeliverAt(queues: map<string, seq<string>>, names: seq<string>, line: string, q: string)
    ensures Box(Deliver(queues, names, line), q) == Box(queues, q) + if q in names then [line] else []
  {
  }

  /** Entries that fit are replayed exactly as they were first broadcast. */
  predicate Whole(e: Entry) {
    |e.sender| <= NAME_LEN && |e.text| <= TEXT_LEN
  }

  ghost predicate AllWhole(log: seq<Entry>) {
    forall k :: 0 <= k < |log| ==> Whole(log[k])
  }

  /** The entries that an input adds to the log. */
  function News(i: Input): seq<Entry> {
    match Parse(i.buf)
    case Join(pid) => if i.canOpen then [JoinEntry(pid)] else []
    case Chat(pid, text) => [ChatEntry(pid, text)]
    case Leave(pid) => [LeaveEntry(pid)]
    case Unknown => []
  }

  lemma NewsIsLogged(s: Server, i: Input)
    ensures Handle(s, i).log == s.log + News(i)
  {
  }

  /** Names and texts are no longer than what was received. */
  ghost predicate Short(c: Command) {
    match c
    case Join(pid) => |pid| <= PID_LEN
    case Chat(pid, text) => |pid| <= PID_LEN && |text| <= TEXT_LEN
    case Leave(pid) => |pid| <= PID_LEN
    case Unknown => true
  }

  lemma ParsedIsShort(buf: string)
    requires |buf| <= TEXT_LEN
    ensures Short(Parse(buf))
  {
  }

  lemma NoticesAreWhole(pid: string)
    requires |pid| <= PID_LEN
    ensures Whole(JoinEntry(pid)) && Whole(LeaveEntry(pid))
  {
  }

  lemma ChatIsWhole(pid: string, text: string)
    requires |pid| <= PID_LEN && |text| <= TEXT_LEN
    ensures Whole(ChatEntry(pid, text))
  {
  }

  lemma CommandIsWhole(i: Input, c: Command)
    requires c == Parse(i.buf) && Short(c)
    ensures AllWhole(News(i))
  {
    match c
    case Join(pid) => NoticesAreWhole(pid);
    case Chat(pid, text) => ChatIsWhole(pid, text);
    case Leave(pid) => NoticesAreWhole(pid);
    case Unknown =>
  }

  lemma NewsIsWhole(i: Input)
    requires Fits(i)
    ensures AllWhole(News(i))
  {
    ParsedIsShort(i.buf);
    CommandIsWhole(i, Parse(i.buf));
  }

  lemma {:induction false} LogIsWhole(inputs: seq<Input>)
    requires forall i :: 0 <= i < |inputs| ==> Fits(inputs[i])
    ensures AllWhole(Run(inputs).log)
  {
    if inputs != [] {
      var init, last := inputs[..|inputs| - 1], inputs[|inputs| - 1];
      LogIsWhole(init);
      NewsIsLogged(Run(init), last);
      NewsIsWhole(last);
    }
  }

  lemma ReplayIsBroadcast(log: seq<Entry>)
    requires AllWhole(log)
    ensures Wires(StoredAll(Recent(log))) == Wires(log)[From(|log|)..]
  {
  }

  /** What `q` has received since it joined between `before` and `at`: the join notice, and
      then the log, without a gap, from at most 256 entries before the JOIN up to the
      present. */
  ghost predicate CaughtUp(before: Server, at: Server, now: Server, q: string) {
    var n := |at.log|;
    && n == |before.log| + 1
    && at.log <= now.log
    && Box(now.queues, q) == Box(before.queues, q) + [Wire(now.log[n - 1])] + Wires(now.log)[From(n)..]
  }

  ghost predicate GapFree(inputs: seq<Input>, q: string, t: nat)
    requires t < |inputs|
  {
    CaughtUp(Run(inputs[..t]), Run(inputs[..t + 1]), Run(inputs), q)
  }

  lemma JoinStarts(s: Server, i: Input, q: string)
    requires JoinsAs(i, q)
    requires AllWhole(Handle(s, i).log)
    ensures CaughtUp(s, Handle(s, i), Handle(s, i), q)
  {
    var pid := Parse(i.buf).pid;
    var s1 := s.(names := if q in s.names then s.names else [q] + s.names);
    var s2 := Publish(s1, JoinEntry(pid));
    DeliverAt(s1.queues, s1.names, Wire(JoinEntry(pid)), q);
    assert Handle(s, i).log == s2.log;
    ReplayIsBroadcast(s2.log);
  }

  /** The join notice comes twice: first as a broadcast and again as the last replayed entry. */
  lemma NoticeComesTwice(before: Server, at: Server, now: Server, q: string)
    requires CaughtUp(before, at, now, q)
    ensures var n := |at.log|; var got := Box(now.queues, q)[|Box(before.queues, q)|..];
            0 < n - From(n) < |got| && got[0] == got[n - From(n)] == Wire(now.log[n - 1])
  {
    var n := |at.log|;
    var rest := Wires(now.log)[From(n)..];
    assert rest[n - 1 - From(n)] == Wires(now.log)[n - 1];
    assert Box(now.queues, q)[|Box(before.queues, q)|..] == [Wire(now.log[n - 1])] + rest;
  }

  lemma SessionGoesOn(before: Server, at: Server, s: Server, i: Input, q: string)
    requires CaughtUp(before, at, s, q) && q in s.names
    requires !JoinsAs(i, q) && !LeavesAs(i, q)
    ensures CaughtUp(before, at, Handle(s, i), q)
  {
    var s' := Handle(s, i);
    OneMore(s, i, q);
    NewsIsLogged(s, i);
    var n := |at.log|;
    assert Wires(s'.log)[From(n)..] == Wires(s.log)[From(n)..] + Wires(s'.log)[|s.log|..];
  }

  /** A published entry reaches the listed clients. */
  lemma PublishedTo(s: Server, e: Entry, q: string)
    ensures var s' := Publish(s, e);
            Box(s'.queues, q) == Box(s.queues, q) + if q in s.names then Wires(s'.log)[|s.log|..] else []
  {
    DeliverAt(s.queues, s.names, Wire(e), q);
    assert Wires(s.log + [e])[|s.log|..] == [Wire(e)];
  }

  /** An input about somebody else brings a listed client exactly the new log entries, and an
      unlisted one nothing. */
  lemma OneMore(s: Server, i: Input, q: string)
    requires !JoinsAs(i, q) && !LeavesAs(i, q)
    ensures var s' := Handle(s, i);
            Box(s'.queues, q) == Box(s.queues, q) + if q in s.names then Wires(s'.log)[|s.log|..] else []
  {
    match Parse(i.buf) {
      case Join(pid) =>
        if i.canOpen {
          var p := QueueName(pid);
          PublishedTo(s.(names := if p in s.names then s.names else [p] + s.names), JoinEntry(pid), q);
        }
      case Chat(pid, text) =>
        PublishedTo(s, ChatEntry(pid, text), q);
      case Leave(pid) =>
        PublishedTo(s.(names := Unlisted(s.names, QueueName(pid))), LeaveEntry(pid), q);
        UnlistedKeepsOthers(s.names, QueueName(pid), q);
      case Unknown =>
    }
  }

  lemma {:induction false} UnlistedKeepsOthers(names: seq<string>, p: string, q: string)
    requires p != q
    ensures q in Unlisted(names, p) <==> q in names
  {
    if names != [] && names[0] != p {
      UnlistedKeepsOthers(names[1..], p, q);
      assert names == [names[0]] + names[1..];
    } else if names != [] {
      assert names == [names[0]] + names[1..];
    }
  }

  /** A client that leaves does not hear of it. */
  lemma LeaveIsSilent(s: Server, i: Input, q: string)
    requires LeavesAs(i, q) && Distinct(s.names)
    ensures Box(Handle(s, i).queues, q) == Box(s.queues, q)
  {
    var pid := Parse(i.buf).pid;
    UnlistedIs(s.names, q);
    DeliverAt(s.queues, Unlisted(s.names, q), Wire(LeaveEntry(pid)), q);
  }

  lemma GapFreeBegins(inputs: seq<Input>, q: string)
    requires inputs != [] && JoinsAs(inputs[|inputs| - 1], q)
    requires forall i :: 0 <= i < |inputs| ==> Fits(inputs[i])
    ensures GapFree(inputs, q, |inputs| - 1)
  {
    LogIsWhole(inputs);
    JoinStarts(Run(inputs[..|inputs| - 1]), inputs[|inputs| - 1], q);
    assert inputs[..|inputs|] == inputs;
  }

  lemma GapFreeGoesOn(inputs: seq<Input>, q: string, t: nat)
    requires inputs != [] && t < |inputs| - 1
    requires GapFree(inputs[..|inputs| - 1], q, t) && InSession(inputs[..|inputs| - 1], q)
    requires !JoinsAs(inputs[|inputs| - 1], q) && !LeavesAs(inputs[|inputs| - 1], q)
    ensures GapFree(inputs, q, t)
  {
    var init, last := inputs[..|inputs| - 1], inputs[|inputs| - 1];
    RegistryIsExact(init);
    assert init[..t] == inputs[..t] && init[..t + 1] == inputs[..t + 1];
    SessionGoesOn(Run(init[..t]), Run(init[..t + 1]), Run(init), last, q);
  }

  /** The main promise, for every run and every client in session. */
  lemma {:induction false} DeliveryIsGapFree(inputs: seq<Input>, q: string)
    requires forall i :: 0 <= i < |inputs| ==> Fits(inputs[i])
    requires InSession(inputs, q)
    ensures GapFree(inputs, q, LastAbout(inputs, q).value)
  {
    var init, last := inputs[..|inputs| - 1], inputs[|inputs| - 1];
    if JoinsAs(last, q) {
      GapFreeBegins(inputs, q);
    } else {
      DeliveryIsGapFree(init, q);
      GapFreeGoesOn(inputs, q, LastAbout(init, q).value);
    }
  }

  /** A client out of session gets nothing: its queue is as it was when its latest LEAVE
      arrived, or empty if it never joined. */
  lemma {:induction false} SilenceOutOfSession(inputs: seq<Input>, q: string)
    requires !InSession(inputs, q)
    ensures var t := LastAbout(inputs, q);
            Box(Run(inputs).queues, q) == if t.Some? then Box(Run(inputs[..t.value]).queues, q) else []
  {
    if inputs != [] {
      var init, last := inputs[..|inputs| - 1], inputs[|inputs| - 1];
      RegistryIsExact(init);
      if LeavesAs(last, q) {
        LeaveIsSilent(Run(init), last, q);
      } else {
        assert LastAbout(inputs, q) == LastAbout(init, q);
        SilenceOutOfSession(init, q);
        OneMore(Run(init), last, q);
        var t := LastAbout(init, q);
        if t.Some? {
          assert init[..t.value] == inputs[..t.value];
        }
      }
    }
  }
}
