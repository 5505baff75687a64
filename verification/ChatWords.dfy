/** The messages of the message-queue chat, word for word: what the server reads in what clients
    send, and what clients then hear. */
module ChatWords {
  import opened Basics
  import opened ChatSpec

  function First31(s: string): string {
    if |s| <= 31 then s else s[..31]
  }

  // ---------- reading ----------

  lemma PrefixRead(head: string, rest: string)
    ensures head <= head + rest && (head + rest)[|head|..] == rest
  {
  }

  lemma JoinReadsBack(pid: string)
    ensures Parse("JOIN:" + pid) == Join(First31(pid))
  {
    PrefixRead("JOIN:", pid);
  }

  lemma LeaveReadsBack(pid: string)
    ensures Parse("LEAVE:" + pid) == Leave(First31(pid))
  {
    PrefixRead("LEAVE:", pid);
    assert ("LEAVE:" + pid)[0] == 'L' && "JOIN:"[0] == 'J' && "MSG:"[0] == 'M';
  }

  lemma {:induction false} ColonAt(pid: string, rest: string)
    requires ':' !in pid
    ensures IndexOfChar(pid + (":" + rest), ':') == |pid|
  {
    var s := pid + (":" + rest);
    assert s[|pid|] == ':';
    assert forall i :: 0 <= i < |pid| ==> s[i] == pid[i] && s[i] != ':';
  }

  lemma MsgRead(p: string)
    ensures Parse("MSG:" + p) == ParseMsg(p)
  {
    PrefixRead("MSG:", p);
    assert ("MSG:" + p)[0] == 'M' && "JOIN:"[0] == 'J';
  }

  /** The pid ends at the first colon; the text is the rest, colons and all. */
  lemma ChatReadsBack(pid: string, text: string)
    requires ':' !in pid
    ensures Parse("MSG:" + (pid + (":" + text))) == Chat(First31(pid), text)
  {
    var p := pid + (":" + text);
    ColonAt(pid, text);
    MsgRead(p);
    assert p[..|pid|] == pid && p[|pid| + 1..] == text;
  }

  lemma NoColonNoChat(p: string)
    requires ':' !in p
    ensures Parse("MSG:" + p) == Unknown
  {
    MsgRead(p);
  }

  /** Anything else is ignored. */
  lemma OthersAreIgnored(s: Server, buf: string, canOpen: bool)
    requires !("JOIN:" <= buf) && !("LEAVE:" <= buf)
    requires !("MSG:" <= buf) || ':' !in buf[4..]
    ensures Handle(s, Input(buf, canOpen)) == s
  {
    if "MSG:" <= buf {
      NoColonNoChat(buf[4..]);
      assert buf == "MSG:" + buf[4..];
    }
  }

  // ---------- hearing ----------

  lemma NoticeWire(pid: string, what: string)
    ensures Wire(Entry("SERVER", "User " + pid + what)) == "SERVER:User " + (pid + what)
  {
    assert "SERVER" + ":" + "User " == "SERVER:User ";
    assert "User " + pid + what == "User " + (pid + what);
  }

  lemma ChatWire(pid: string, text: string)
    ensures Wire(ChatEntry(pid, text)) == "Client_" + (pid + (":" + text))
  {
  }

  /** A published entry reaches every listed client as one message, and nobody else. */
  lemma Heard(s: Server, e: Entry, q: string)
    ensures Box(Publish(s, e).queues, q) == Box(s.queues, q) + if q in s.names then [Wire(e)] else []
  {
    DeliverAt(s.queues, s.names, Wire(e), q);
  }

  /** "MSG:42:hello" reaches every listed client as "Client_42:hello". */
  lemma ChatIsHeard(s: Server, pid: string, text: string, canOpen: bool, q: string)
    requires ':' !in pid && |pid| <= 31
    ensures var s' := Handle(s, Input("MSG:" + (pid + (":" + text)), canOpen));
            && s'.names == s.names
            && Box(s'.queues, q) == Box(s.queues, q) + if q in s.names then ["Client_" + (pid + (":" + text))] else []
  {
    ChatReadsBack(pid, text);
    ChatWire(pid, text);
    Heard(s, ChatEntry(pid, text), q);
  }

  /** "JOIN:42" lists "/client_42" if its queue can be opened, and the others hear
      "SERVER:User 42 joined"; otherwise nothing happens. */
  lemma JoinIsHeard(s: Server, pid: string, q: string)
    requires |pid| <= 31
    ensures Handle(s, Input("JOIN:" + pid, false)) == s
    ensures var s' := Handle(s, Input("JOIN:" + pid, true));
            && (q in s'.names <==> q == "/client_" + pid || q in s.names)
            && (q != "/client_" + pid ==>
                  Box(s'.queues, q) == Box(s.queues, q) + if q in s.names then ["SERVER:User " + (pid + " joined")] else [])
  {
    JoinReadsBack(pid);
    NoticeWire(pid, " joined");
    var who := QueueName(pid);
    var s1 := s.(names := if who in s.names then s.names else [who] + s.names);
    Heard(s1, JoinEntry(pid), q);
  }

  /** "LEAVE:42" takes "/client_42" off the list, and those left hear "SERVER:User 42 left". */
  lemma LeaveIsHeard(s: Server, pid: string, canOpen: bool, q: string)
    requires |pid| <= 31 && Distinct(s.names)
    ensures var s' := Handle(s, Input("LEAVE:" + pid, canOpen));
            && (q in s'.names <==> q != "/client_" + pid && q in s.names)
            && Box(s'.queues, q) == Box(s.queues, q) + if q in s'.names then ["SERVER:User " + (pid + " left")] else []
  {
    LeaveReadsBack(pid);
    NoticeWire(pid, " left");
    UnlistedIs(s.names, QueueName(pid));
    Heard(s.(names := Unlisted(s.names, QueueName(pid))), LeaveEntry(pid), q);
  }
}
