/** The shared-memory chat room: the messages in its log, and what one reader makes of them. */
module RoomLog {
  import opened Basics
  import opened CText

  const MAX_CLIENTS := 256
  const MAX_MESSAGES := 2048
  const MAX_LINES := 1000
  const TEXT_LEN := 1023

  datatype Message = Message(sender: string, text: string)

  // ---------- the three kinds of message that are ever written ----------

  function JoinNotice(pid: nat): Message {
    Message("SERVER", "User " + Decimal(pid) + " joined")
  }

  function LeaveNotice(pid: nat): Message {
    Message("SERVER", "User " + Decimal(pid) + " left")
  }

  function ChatMessage(pid: nat, text: string): Message {
    Message("Client_" + Decimal(pid), Cut(text, TEXT_LEN))
  }

  ghost predicate Genuine(m: Message) {
    || (exists pid :: m == JoinNotice(pid))
    || (exists pid :: m == LeaveNotice(pid))
    || (exists pid, text :: m == ChatMessage(pid, text))
  }

  ghost predicate GenuineLog(log: seq<Message>) {
    forall i :: 0 <= i < |log| ==> Genuine(log[i])
  }

  ghost predicate IsJoin(m: Message) {
    exists pid :: m == JoinNotice(pid)
  }

  ghost function Joins(log: seq<Message>): nat {
    if log == [] then 0
    else Joins(log[..|log| - 1]) + if IsJoin(log[|log| - 1]) then 1 else 0
  }

  // ---------- what a reader does with one message ----------

  function Line(m: Message): string {
    m.sender + ":" + m.text
  }

  function ClientName(word: string): string {
    "/client_" + word
  }

  function IndexOf(names: seq<string>, who: string): (k: nat)
    ensures k <= |names|
    ensures k < |names| ==> names[k] == who
    ensures who !in names[..k]
    ensures k == |names| <==> who !in names
  {
    if names == [] || names[0] == who then 0 else 1 + IndexOf(names[1..], who)
  }

  /** Drops the first occurrence, closing the gap. */
  function Without(names: seq<string>, who: string): seq<string> {
    var k := IndexOf(names, who);
    if k < |names| then names[..k] + names[k + 1..] else names
  }

  function RosterStep(roster: seq<string>, line: string): seq<string> {
    if "SERVER:User " <= line then
      var who := ClientName(FirstWord(line[12..]));
      if Contains(line, "joined") then
        if who in roster || |roster| >= MAX_CLIENTS then roster else roster + [who]
      else if Contains(line, "left") then Without(roster, who)
      else roster
    else roster
  }

  function WindowStep(lines: seq<string>, line: string): seq<string> {
    if |lines| < MAX_LINES then lines + [line] else lines[1..] + [line]
  }

  function RosterOf(log: seq<Message>): seq<string> {
    if log == [] then []
    else RosterStep(RosterOf(log[..|log| - 1]), Line(log[|log| - 1]))
  }

  function WindowOf(log: seq<Message>): seq<string> {
    if log == [] then []
    else WindowStep(WindowOf(log[..|log| - 1]), Line(log[|log| - 1]))
  }

  // ---------- the window ----------

  function Lines(log: seq<Message>): (s: seq<string>)
    ensures |s| == |log|
    ensures forall i :: 0 <= i < |log| ==> s[i] == Line(log[i])
  {
    seq(|log|, i requires 0 <= i < |log| => Line(log[i]))
  }

  /** The window holds the last 1000 lines, or all of them if there are fewer. */
  lemma {:induction false} WindowIsTail(log: seq<Message>)
    ensures WindowOf(log) == Lines(log)[if |log| <= MAX_LINES then 0 else |log| - MAX_LINES..]
  {
    if log != [] {
      var init := log[..|log| - 1];
      WindowIsTail(init);
      assert Lines(log) == Lines(init) + [Line(log[|log| - 1])];
    }
  }

  // ---------- reading back the notices ----------

  lemma LineOfNotice(pid: nat, what: string)
    ensures var line := Line(Message("SERVER", "User " + Decimal(pid) + what));
            && line == "SERVER:User " + (Decimal(pid) + what)
            && "SERVER:User " <= line && line[12..] == Decimal(pid) + what
  {
    var line := Line(Message("SERVER", "User " + Decimal(pid) + what));
    assert "SERVER" + ":" + "User " == "SERVER:User ";
    assert line == "SERVER:User " + (Decimal(pid) + what);
    assert ("SERVER:User " + (Decimal(pid) + what))[12..] == Decimal(pid) + what;
  }

  lemma JoinNoticeAdds(roster: seq<string>, pid: nat)
    ensures var who := ClientName(Decimal(pid));
            RosterStep(roster, Line(JoinNotice(pid))) ==
            if who in roster || |roster| >= MAX_CLIENTS then roster else roster + [who]
  {
    NoticeReadBack(pid, " ", "joined");
    assert " " + "joined" == " joined";
  }

  /** A notice carries the pid and the word it was made with. */
  lemma NoticeReadBack(pid: nat, blank: string, word: string)
    requires blank == " "
    ensures var line := Line(Message("SERVER", "User " + Decimal(pid) + (blank + word)));
            && "SERVER:User " <= line
            && FirstWord(line[12..]) == Decimal(pid)
            && Contains(line, word)
  {
    LineOfNotice(pid, blank + word);
    NoticeWords("SERVER:User ", Decimal(pid), blank, word);
  }

  lemma NoticeWords(head: string, number: string, blank: string, word: string)
    requires blank == " " && number != [] && forall i :: 0 <= i < |number| ==> '0' <= number[i] <= '9'
    ensures FirstWord(number + (blank + word)) == number
    ensures Contains(head + (number + (blank + word)), word)
  {
    FirstWordIs(number, blank + word);
    ContainsMiddle(head + (number + blank), word, "");
    assert head + (number + (blank + word)) == head + (number + blank) + word + "";
  }

  lemma LetterMissing(head: string, number: string, tail: string, word: string)
    requires word != [] && word[0] !in head && word[0] !in number && word[0] !in tail
    ensures !Contains(head + (number + tail), word)
  {
    assert word[0] !in number + tail;
    assert word[0] !in head + (number + tail);
    ContainsNeedsLetters(head + (number + tail), word, 0);
  }

  lemma LeaveNoticeDrops(roster: seq<string>, pid: nat)
    ensures RosterStep(roster, Line(LeaveNotice(pid))) == Without(roster, ClientName(Decimal(pid)))
  {
    NoticeReadBack(pid, " ", "left");
    assert " " + "left" == " left";
    LineOfNotice(pid, " left");
    assert "joined"[0] == 'j' && 'j' !in Decimal(pid);
    LetterMissing("SERVER:User ", Decimal(pid), " left", "joined");
  }

  lemma ChatChangesNothing(roster: seq<string>, pid: nat, text: string)
    ensures RosterStep(roster, Line(ChatMessage(pid, text))) == roster
  {
    var line := Line(ChatMessage(pid, text));
    assert line[0] == "Client_"[0] == 'C';
    assert "SERVER:User "[0] == 'S';
  }

  lemma NoticesDiffer(p: nat, q: nat, text: string)
    ensures JoinNotice(p) == JoinNotice(q) ==> p == q
    ensures LeaveNotice(p) == LeaveNotice(q) ==> p == q
    ensures JoinNotice(p) != LeaveNotice(q)
    ensures ChatMessage(p, text) != JoinNotice(q) && ChatMessage(p, text) != LeaveNotice(q)
  {
    var jp, jq, lp, lq := JoinNotice(p), JoinNotice(q), LeaveNotice(p), LeaveNotice(q);
    assert jp.text[5..|jp.text| - 7] == Decimal(p) && jq.text[5..|jq.text| - 7] == Decimal(q);
    assert lp.text[5..|lp.text| - 5] == Decimal(p) && lq.text[5..|lq.text| - 5] == Decimal(q);
    if jp == jq || lp == lq {
      DecimalInjective(p, q);
    }
    assert jp.text[|jp.text| - 1] == 'd' && lq.text[|lq.text| - 1] == 't';
    assert ChatMessage(p, text).sender[0] == 'C' && "SERVER"[0] == 'S';
  }

  lemma OnlyJoinsJoin(p: nat, text: string)
    ensures !IsJoin(LeaveNotice(p)) && !IsJoin(ChatMessage(p, text))
  {
    forall q ensures LeaveNotice(p) != JoinNotice(q) && ChatMessage(p, text) != JoinNotice(q) {
      NoticesDiffer(q, p, "");
      NoticesDiffer(p, q, text);
    }
  }

  lemma GenuineGrows(log: seq<Message>, m: Message)
    requires GenuineLog(log) && Genuine(m)
    ensures GenuineLog(log + [m])
    ensures Joins(log + [m]) == Joins(log) + if IsJoin(m) then 1 else 0
  {
    assert (log + [m])[..|log|] == log;
  }

  /** Appending a genuine message keeps the log genuine and counts joins only. */
  lemma AppendsCount(log: seq<Message>, p: nat, text: string)
    requires GenuineLog(log)
    ensures GenuineLog(log + [JoinNotice(p)]) && Joins(log + [JoinNotice(p)]) == Joins(log) + 1
    ensures GenuineLog(log + [LeaveNotice(p)]) && Joins(log + [LeaveNotice(p)]) == Joins(log)
    ensures GenuineLog(log + [ChatMessage(p, text)]) && Joins(log + [ChatMessage(p, text)]) == Joins(log)
  {
    OnlyJoinsJoin(p, text);
    GenuineGrows(log, JoinNotice(p));
    GenuineGrows(log, LeaveNotice(p));
    GenuineGrows(log, ChatMessage(p, text));
  }

  lemma NamesDiffer(p: nat, q: nat)
    requires ClientName(Decimal(p)) == ClientName(Decimal(q))
    ensures p == q
  {
    assert ClientName(Decimal(p))[8..] == Decimal(p);
    assert ClientName(Decimal(q))[8..] == Decimal(q);
    DecimalInjective(p, q);
  }

  // ---------- the roster ----------

  /** The latest notice about `pid` says that it joined. */
  ghost predicate Present(log: seq<Message>, pid: nat) {
    log != [] &&
    var last := log[|log| - 1];
    if last == JoinNotice(pid) then true
    else if last == LeaveNotice(pid) then false
    else Present(log[..|log| - 1], pid)
  }

  ghost predicate ExactRoster(roster: seq<string>, log: seq<Message>) {
    && Distinct(roster)
    && |roster| <= Joins(log)
    && (forall pid :: ClientName(Decimal(pid)) in roster <==> Present(log, pid))
    && (forall who :: who in roster ==> exists pid :: who == ClientName(Decimal(pid)))
  }

  lemma JoinMakesPresent(init: seq<Message>, p: nat, pid: nat)
    ensures Present(init + [JoinNotice(p)], pid) <==> pid == p || Present(init, pid)
  {
    var log := init + [JoinNotice(p)];
    assert log[..|log| - 1] == init;
    NoticesDiffer(p, pid, "");
  }

  lemma LeaveMakesAbsent(init: seq<Message>, p: nat, pid: nat)
    ensures Present(init + [LeaveNotice(p)], pid) <==> pid != p && Present(init, pid)
  {
    var log := init + [LeaveNotice(p)];
    assert log[..|log| - 1] == init;
    NoticesDiffer(p, pid, "");
    NoticesDiffer(pid, p, "");
  }

  lemma AfterJoin(roster: seq<string>, init: seq<Message>, p: nat)
    requires ExactRoster(roster, init) && |roster| < MAX_CLIENTS
    requires Joins(init + [JoinNotice(p)]) == Joins(init) + 1
    ensures ExactRoster(RosterStep(roster, Line(JoinNotice(p))), init + [JoinNotice(p)])
  {
    JoinNoticeAdds(roster, p);
    var longer := RosterStep(roster, Line(JoinNotice(p)));
    forall pid ensures ClientName(Decimal(pid)) in longer <==> Present(init + [JoinNotice(p)], pid) {
      JoinMakesPresent(init, p, pid);
      if ClientName(Decimal(pid)) == ClientName(Decimal(p)) {
        NamesDiffer(pid, p);
      }
    }
  }

  lemma AfterLeave(roster: seq<string>, init: seq<Message>, p: nat)
    requires ExactRoster(roster, init)
    requires Joins(init + [LeaveNotice(p)]) == Joins(init)
    ensures ExactRoster(RosterStep(roster, Line(LeaveNotice(p))), init + [LeaveNotice(p)])
  {
    LeaveNoticeDrops(roster, p);
    var who := ClientName(Decimal(p));
    var shorter := RosterStep(roster, Line(LeaveNotice(p)));
    WithoutRemoves(roster, who);
    forall pid ensures ClientName(Decimal(pid)) in shorter <==> Present(init + [LeaveNotice(p)], pid) {
      LeaveMakesAbsent(init, p, pid);
      if ClientName(Decimal(pid)) == who {
        NamesDiffer(pid, p);
      }
    }
  }

  lemma WithoutRemoves(names: seq<string>, who: string)
    requires Distinct(names)
    ensures var s := Without(names, who);
            && Distinct(s) && |s| <= |names|
            && (forall x :: x in s <==> x in names && x != who)
  {
    var k := IndexOf(names, who);
    var s := Without(names, who);
    if k < |names| {
      forall x ensures x in s <==> x in names && x != who {
        if x in names && x != who {
          var i :| 0 <= i < |names| && names[i] == x;
          assert s[if i < k then i else i - 1] == x;
        }
      }
    }
  }

  lemma AfterChat(roster: seq<string>, init: seq<Message>, p: nat, text: string)
    requires ExactRoster(roster, init)
    ensures ExactRoster(RosterStep(roster, Line(ChatMessage(p, text))), init + [ChatMessage(p, text)])
  {
    var log := init + [ChatMessage(p, text)];
    assert log[..|log| - 1] == init;
    ChatChangesNothing(roster, p, text);
    forall pid ensures Present(log, pid) <==> Present(init, pid) {
      NoticesDiffer(p, pid, text);
    }
  }

  /** The roster a reader keeps is exact, provided no more than 256 joins were ever logged:
      the 256-entry guard then never drops anybody. */
  lemma {:induction false} RosterIsExact(log: seq<Message>)
    requires GenuineLog(log) && Joins(log) <= MAX_CLIENTS
    ensures ExactRoster(RosterOf(log), log)
  {
    if log != [] {
      var init, last := log[..|log| - 1], log[|log| - 1];
      assert log == init + [last];
      assert Genuine(last);
      RosterIsExact(init);
      if p :| last == JoinNotice(p) {
        AppendsCount(init, p, "");
        AfterJoin(RosterOf(init), init, p);
      } else if p :| last == LeaveNotice(p) {
        AppendsCount(init, p, "");
        AfterLeave(RosterOf(init), init, p);
      } else {
        var p, text :| last == ChatMessage(p, text);
        AfterChat(RosterOf(init), init, p, text);
      }
    }
  }
}
