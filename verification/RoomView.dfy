/** The arrays in which a reader of the shared-memory chat keeps its roster and its lines. */
module RoomView {
  import opened CText
  import opened RoomLog

  class View {
    const lines: array<string>
    var linesCount: nat
    const clients: array<string>
    var clientsCount: nat
    var lastMsg: nat

    ghost predicate Valid()
      reads this, lines, clients
    {
      && lines.Length == MAX_LINES && linesCount <= MAX_LINES
      && clients.Length == MAX_CLIENTS && clientsCount <= MAX_CLIENTS
      && lines != clients
    }

    ghost function Shown(): seq<string>
      requires Valid()
      reads this, lines, clients
    {
      lines[..linesCount]
    }

    ghost function Roster(): seq<string>
      requires Valid()
      reads this, lines, clients
    {
      clients[..clientsCount]
    }

    constructor ()
      ensures Valid() && fresh(lines) && fresh(clients)
      ensures Shown() == [] && Roster() == [] && lastMsg == 0
    {
      lines := new string[MAX_LINES](_ => "");
      clients := new string[MAX_CLIENTS](_ => "");
      linesCount, clientsCount, lastMsg := 0, 0, 0;
    }

    /** The roster part: add on "joined", remove and close the gap on "left". */
    method UpdateRoster(buf: string)
      requires Valid()
      modifies this, clients
      ensures Valid() && Roster() == RosterStep(old(Roster()), buf)
      ensures linesCount == old(linesCount) && lastMsg == old(lastMsg)
    {
      if "SERVER:User " <= buf {
        var cname := ClientName(FirstWord(buf[12..]));
        if Contains(buf, "joined") {
          var known := false;
          for i := 0 to clientsCount
            invariant known <==> cname in clients[..i]
          {
            if clients[i] == cname { known := true; }
          }
          if !known && clientsCount < MAX_CLIENTS {
            clients[clientsCount] := cname;
            clientsCount := clientsCount + 1;
          }
        } else if Contains(buf, "left") {
          RemoveName(cname);
        }
      }
    }

    method RemoveName(cname: string)
      requires Valid()
      modifies this, clients
      ensures Valid() && Roster() == Without(old(Roster()), cname)
      ensures linesCount == old(linesCount) && lastMsg == old(lastMsg)
    {
      var i := FindName(cname);
      if i < clientsCount {
        CloseGap(i);
      }
    }

    method FindName(cname: string) returns (i: nat)
      requires Valid()
      ensures i == IndexOf(Roster(), cname)
    {
      i := 0;
      while i < clientsCount && clients[i] != cname
        invariant 0 <= i <= clientsCount
        invariant cname !in Roster()[..i]
      {
        i := i + 1;
      }
      FirstIndex(Roster(), cname, i);
    }

    /** Moves everything behind position i up by one. */
    method CloseGap(i: nat)
      requires Valid() && i < clientsCount
      modifies this, clients
      ensures Valid() && Roster() == old(Roster())[..i] + old(Roster())[i + 1..]
      ensures linesCount == old(linesCount) && lastMsg == old(lastMsg)
    {
      ghost var names := Roster();
      var j := i;
      while j < clientsCount - 1
        invariant i <= j <= clientsCount - 1
        invariant forall k :: 0 <= k < i ==> clients[k] == names[k]
        invariant forall k :: i <= k < j ==> clients[k] == names[k + 1]
        invariant forall k :: j <= k < clientsCount ==> clients[k] == names[k]
        modifies clients
      {
        clients[j] := clients[j + 1];
        j := j + 1;
      }
      clientsCount := clientsCount - 1;
      assert clients[..clientsCount] == names[..i] + names[i + 1..];
    }

    /** The line part: append, or shift everything up by one and overwrite the last. */
    method UpdateLines(buf: string)
      requires Valid()
      modifies this, lines
      ensures Valid() && Shown() == WindowStep(old(Shown()), buf)
      ensures clientsCount == old(clientsCount) && lastMsg == old(lastMsg)
    {
      if linesCount < MAX_LINES {
        lines[linesCount] := buf;
        linesCount := linesCount + 1;
      } else {
        ghost var shown := Shown();
        var k := 0;
        while k < MAX_LINES - 1
          invariant 0 <= k <= MAX_LINES - 1
          invariant forall i :: 0 <= i < k ==> lines[i] == shown[i + 1]
          invariant forall i :: k <= i < MAX_LINES ==> lines[i] == shown[i]
          modifies lines
        {
          lines[k] := lines[k + 1];
          k := k + 1;
        }
        lines[MAX_LINES - 1] := buf;
        assert lines[..linesCount] == shown[1..] + [buf];
      }
    }

    /** One turn of the reader's inner loop. */
    method Consume(m: Message)
      requires Valid()
      modifies this, lines, clients
      ensures Valid()
      ensures Roster() == RosterStep(old(Roster()), Line(m))
      ensures Shown() == WindowStep(old(Shown()), Line(m))
      ensures lastMsg == old(lastMsg) + 1
    {
      var buf := m.sender + ":" + m.text;
      UpdateRoster(buf);
      UpdateLines(buf);
      lastMsg := lastMsg + 1;
    }

    method ConsumeNext(log: seq<Message>)
      requires Valid() && lastMsg < |log|
      requires Roster() == RosterOf(log[..lastMsg]) && Shown() == WindowOf(log[..lastMsg])
      modifies this, lines, clients
      ensures Valid() && lastMsg == old(lastMsg) + 1
      ensures Roster() == RosterOf(log[..lastMsg]) && Shown() == WindowOf(log[..lastMsg])
    {
      FoldsGrow(log, lastMsg);
      Consume(log[lastMsg]);
    }

    /** The inner loop: consume everything logged so far. */
    method Drain(log: seq<Message>)
      requires Valid() && lastMsg <= |log|
      requires Roster() == RosterOf(log[..lastMsg]) && Shown() == WindowOf(log[..lastMsg])
      modifies this, lines, clients
      ensures Valid() && lastMsg == |log|
      ensures Roster() == RosterOf(log) && Shown() == WindowOf(log)
    {
      while lastMsg < |log|
        invariant Valid() && lastMsg <= |log|
        invariant Roster() == RosterOf(log[..lastMsg]) && Shown() == WindowOf(log[..lastMsg])
      {
        ConsumeNext(log);
      }
      assert log[..lastMsg] == log;
    }
  }

  lemma FirstIndex(names: seq<string>, who: string, i: nat)
    requires i <= |names| && who !in names[..i] && (i < |names| ==> names[i] == who)
    ensures IndexOf(names, who) == i
  {
    var k := IndexOf(names, who);
  }

  /** Consuming one more entry extends the two folds by one entry. */
  lemma FoldsGrow(log: seq<Message>, n: nat)
    requires n < |log|
    ensures RosterOf(log[..n + 1]) == RosterStep(RosterOf(log[..n]), Line(log[n]))
    ensures WindowOf(log[..n + 1]) == WindowStep(WindowOf(log[..n]), Line(log[n]))
  {
    var upTo := log[..n + 1];
    assert upTo[..|upTo| - 1] == log[..n];
  }
}
