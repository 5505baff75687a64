/** The dispatcher of the message-queue chat server, over its history and its registry. */
module ChatDispatch {
  import opened Basics
  import opened CText
  import opened ChatSpec
  import opened ChatServer

  lemma DeliverOneMore(queues: map<string, seq<string>>, names: seq<string>, i: nat, line: string)
    requires i < |names| && Distinct(names)
    ensures Deliver(queues, names[..i + 1], line) ==
            var d := Deliver(queues, names[..i], line); d[names[i] := Box(d, names[i]) + [line]]
  {
    assert names[..i + 1] == names[..i] + [names[i]];
    assert names[i] !in names[..i];
    var d := Deliver(queues, names[..i], line);
    var a, b := Deliver(queues, names[..i + 1], line), d[names[i] := Box(d, names[i]) + [line]];
    assert a.Keys == b.Keys;
    forall q | q in a ensures a[q] == b[q] {
      assert q in names[..i + 1] <==> q in names[..i] || q == names[i];
    }
  }

  lemma DeliverToNobody(queues: map<string, seq<string>>, line: string)
    ensures Deliver(queues, [], line) == queues
  {
    assert forall q :: q in queues ==> Box(queues, q) + [] == queues[q];
  }

  lemma SendNothing(queues: map<string, seq<string>>, q: string)
    requires q in queues
    ensures SendAll(queues, q, []) == queues
  {
    assert queues[q] + [] == queues[q];
  }

  lemma SendOneMore(queues: map<string, seq<string>>, q: string, lines: seq<string>, line: string)
    ensures SendAll(queues, q, lines + [line]) == SendAll(SendAll(queues, q, lines), q, [line])
  {
    assert Box(queues, q) + (lines + [line]) == Box(queues, q) + lines + [line];
  }

  class ChatRoomServer {
    const history: History
    const registry: Registry
    /** Open descriptors and the queue each belongs to. */
    var fds: map<int, string>
    var nextFd: int
    /** Everything ever put on each client's queue. */
    var queues: map<string, seq<string>>
    /** Every event ever published. */
    ghost var log: seq<Entry>

    ghost predicate Valid()
      reads this, history, history.slots, registry, registry.spine
    {
      && history.Holds(log)
      && registry.Valid()
      && nextFd >= 0
      && (forall fd :: fd in fds ==> 0 <= fd < nextFd)
      && (forall c :: c in registry.spine ==> c.mqd in fds && fds[c.mqd] == c.qname)
    }

    ghost function Abs(): Server
      reads this, registry
    {
      Server(log, NamesOf(registry.spine), queues)
    }

    constructor ()
      ensures Valid() && Abs() == Run([])
      ensures fresh(history) && fresh(history.slots) && fresh(registry)
    {
      history := new History();
      registry := new Registry();
      fds, nextFd, queues, log := map[], 0, map[], [];
      new;
      assert NamesOf(registry.spine) == [];
    }

    /** mq_send, which is taken to succeed. */
    method MqSend(mqd: int, line: string)
      requires mqd in fds
      modifies `queues
      ensures queues == old(queues)[fds[mqd] := Box(old(queues), fds[mqd]) + [line]]
    {
      queues := queues[fds[mqd] := Box(queues, fds[mqd]) + [line]];
    }

    method Broadcast(sender: string, text: string)
      requires Valid()
      modifies `queues
      ensures Valid()
      ensures queues == Deliver(old(queues), NamesOf(registry.spine), Wire(Entry(sender, text)))
    {
      var buf := sender + ":" + text;
      ghost var names := NamesOf(registry.spine);
      var c := registry.head;
      ghost var i := 0;
      DeliverToNobody(queues, buf);
      assert names[..0] == [];
      while c != null
        invariant 0 <= i <= |names|
        invariant c == if i < |names| then registry.spine[i] else null
        invariant queues == Deliver(old(queues), names[..i], buf)
        decreases |names| - i
      {
        assert c in registry.spine && Linked(registry.spine, i);
        DeliverOneMore(old(queues), names, i, buf);
        if c.mqd != -1 {
          MqSend(c.mqd, buf);
        }
        c, i := c.next, i + 1;
      }
      assert names[..i] == names;
    }

    method SendHistoryToClient(mqd: int)
      requires Valid() && mqd in fds && fds[mqd] in queues
      modifies `queues
      ensures Valid()
      ensures queues == SendAll(old(queues), fds[mqd], Wires(StoredAll(Recent(log))))
    {
      var q := fds[mqd];
      ghost var lines := Wires(StoredAll(Recent(log)));
      var i := 0;
      assert lines[..0] == [];
      SendNothing(queues, q);
      while i < history.count
        invariant 0 <= i <= history.count
        invariant queues == SendAll(old(queues), q, lines[..i])
      {
        var e := history.At(i);
        assert lines[..i + 1] == lines[..i] + [Wire(e)];
        SendOneMore(old(queues), q, lines[..i], Wire(e));
        MqSend(mqd, e.sender + ":" + e.text);
        i := i + 1;
      }
      assert lines[..i] == lines;
    }

    /** push_history and broadcast_message, always called together. */
    method Announce(sender: string, text: string)
      requires Valid()
      modifies this, history, history.slots
      ensures Valid() && fds == old(fds) && nextFd == old(nextFd)
      ensures log == old(log) + [Entry(sender, text)]
      ensures queues == Deliver(old(queues), NamesOf(registry.spine), Wire(Entry(sender, text)))
    {
      history.PushHistory(sender, text, log);
      log := log + [Entry(sender, text)];
      Broadcast(sender, text);
    }

    /** mq_open of the client's queue, and its entry in the registry. */
    method Enlist(qname: string) returns (mqd: int)
      requires Valid()
      modifies this, registry, registry.spine
      ensures Valid() && log == old(log) && queues == old(queues)
      ensures mqd in fds && fds[mqd] == qname
      ensures forall c :: c in registry.spine ==> c in old(registry.spine) || fresh(c)
      ensures NamesOf(registry.spine) ==
              if qname in old(NamesOf(registry.spine)) then old(NamesOf(registry.spine)) else [qname] + old(NamesOf(registry.spine))
    {
      mqd := nextFd;
      fds, nextFd := fds[mqd := qname], nextFd + 1;
      registry.AddOrUpdateClient(qname, mqd);
      forall c | c in registry.spine ensures c.mqd in fds && fds[c.mqd] == c.qname {
        if c.qname != qname {
          assert c in old(registry.spine);
        }
      }
    }

    method HandleJoin(pid: string, canOpen: bool)
      requires Valid()
      modifies this, history, history.slots, registry, registry.spine
      ensures Valid()
      ensures forall c :: c in registry.spine ==> c in old(registry.spine) || fresh(c)
      ensures Abs() == if canOpen then Joined(old(Abs()), pid) else old(Abs())
    {
      if !canOpen { return; }
      var qname := QueueName(pid);
      var mqd := Enlist(qname);
      Announce("SERVER", "User " + pid + " joined");
      assert qname in NamesOf(registry.spine);
      SendHistoryToClient(mqd);
    }

    method HandleLeave(pid: string)
      requires Valid()
      modifies this, history, history.slots, registry, registry.spine
      ensures Valid()
      ensures forall c :: c in registry.spine ==> c in old(registry.spine) || fresh(c)
      ensures Abs() == Publish(old(Abs()).(names := Unlisted(old(Abs()).names, QueueName(pid))), LeaveEntry(pid))
    {
      UnlistedIs(NamesOf(registry.spine), QueueName(pid));
      var gone := registry.RemoveClientByName(QueueName(pid));
      if gone != null && gone.mqd != -1 {
        CloseIsPrivate(gone);
        fds := fds - {gone.mqd};
      }
      Announce("SERVER", "User " + pid + " left");
    }

    lemma CloseIsPrivate(gone: ClientNode)
      requires gone.mqd in fds && fds[gone.mqd] == gone.qname
      requires gone.qname !in NamesOf(registry.spine)
      requires forall c :: c in registry.spine ==> c.mqd in fds && fds[c.mqd] == c.qname
      ensures forall c :: c in registry.spine ==> c.mqd != gone.mqd
    {
      forall c | c in registry.spine ensures c.mqd != gone.mqd {
        var i :| 0 <= i < |registry.spine| && registry.spine[i] == c;
        assert NamesOf(registry.spine)[i] == c.qname;
      }
    }

    /** One turn of the main loop. */
    method Dispatch(buf: string, canOpen: bool)
      requires Valid() && Fits(Input(buf, canOpen))
      modifies this, history, history.slots, registry, registry.spine
      ensures Valid()
      ensures forall c :: c in registry.spine ==> c in old(registry.spine) || fresh(c)
      ensures Abs() == Handle(old(Abs()), Input(buf, canOpen))
    {
      if "JOIN:" <= buf {
        HandleJoin(Cut(buf[5..], PID_LEN), canOpen);
      } else if "MSG:" <= buf {
        var p := buf[4..];
        var k := IndexOfChar(p, ':');
        if k == |p| { return; }
        Announce("Client_" + Cut(p[..k], PID_LEN), p[k + 1..]);
      } else if "LEAVE:" <= buf {
        HandleLeave(Cut(buf[6..], PID_LEN));
      }
    }

    /** The main loop, over everything that ever arrives. */
    method Serve(inputs: seq<Input>)
      requires Valid() && Abs() == Run([])
      requires forall i :: 0 <= i < |inputs| ==> Fits(inputs[i])
      modifies this, history, history.slots, registry, registry.spine
      ensures Valid() && Abs() == Run(inputs)
    {
      var i := 0;
      assert inputs[..0] == [];
      while i < |inputs|
        invariant 0 <= i <= |inputs| && Valid()
        invariant forall c :: c in registry.spine ==> c in old(registry.spine) || fresh(c)
        invariant Abs() == Run(inputs[..i])
      {
        assert inputs[..i + 1][..i] == inputs[..i];
        Dispatch(inputs[i].buf, inputs[i].canOpen);
        i := i + 1;
      }
      assert inputs[..i] == inputs;
    }
  }
}
