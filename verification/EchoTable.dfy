/** The client table of the UDP echo server: a growing array of addresses and counters. */
module EchoTable {

  const INITIAL_CAPACITY := 16

  datatype ClientData = ClientData(ip: nat, port: nat, counter: int)

  datatype Packet = Packet(ip: nat, port: nat, payload: string)

  predicate IsDisconnect(p: Packet) {
    p.payload == "__CLIENT_DISCONNECT__"
  }

  predicate Same(c: ClientData, ip: nat, port: nat) {
    c.ip == ip && c.port == port
  }

  predicate From(p: Packet, ip: nat, port: nat) {
    p.ip == ip && p.port == port
  }

  // ---------- what a packet does to the table ----------

  function IndexOf(t: seq<ClientData>, ip: nat, port: nat): (k: nat)
    ensures k <= |t|
    ensures k < |t| ==> Same(t[k], ip, port)
    ensures forall i :: 0 <= i < k ==> !Same(t[i], ip, port)
  {
    if t == [] || Same(t[0], ip, port) then 0 else 1 + IndexOf(t[1..], ip, port)
  }

  function Received(t: seq<ClientData>, p: Packet): seq<ClientData> {
    var k := IndexOf(t, p.ip, p.port);
    if k == |t| then t + [ClientData(p.ip, p.port, 1)]
    else if IsDisconnect(p) then t[k := t[k].(counter := 0)]
    else t[k := t[k].(counter := t[k].counter + 1)]
  }

  function TableOf(history: seq<Packet>): seq<ClientData> {
    if history == [] then [] else Received(TableOf(history[..|history| - 1]), history[|history| - 1])
  }

  // ---------- what the counters mean ----------

  /** How many packets came from an address. */
  function HowMany(history: seq<Packet>, ip: nat, port: nat): nat {
    if history == [] then 0
    else HowMany(history[..|history| - 1], ip, port) + if From(history[|history| - 1], ip, port) then 1 else 0
  }

  /** A disconnect message counts as one only from an address already known. */
  predicate IsReset(history: seq<Packet>, j: nat, ip: nat, port: nat)
    requires j < |history|
  {
    From(history[j], ip, port) && IsDisconnect(history[j]) && HowMany(history[..j], ip, port) > 0
  }

  /** The position after the latest reset, or 0. */
  function SessionStart(history: seq<Packet>, ip: nat, port: nat): (k: nat)
    ensures k <= |history|
    ensures k > 0 ==> IsReset(history, k - 1, ip, port)
    ensures forall j :: k <= j < |history| ==> !IsReset(history, j, ip, port)
  {
    if history == [] then 0
    else if IsReset(history, |history| - 1, ip, port) then |history|
    else
      ResetsOfPrefix(history, ip, port);
      SessionStart(history[..|history| - 1], ip, port)
  }

  lemma ResetsOfPrefix(history: seq<Packet>, ip: nat, port: nat)
    requires history != []
    ensures var init := history[..|history| - 1];
            forall j :: 0 <= j < |init| ==> (IsReset(init, j, ip, port) <==> IsReset(history, j, ip, port))
  {
    var init := history[..|history| - 1];
    forall j | 0 <= j < |init| ensures IsReset(init, j, ip, port) <==> IsReset(history, j, ip, port) {
      assert init[..j] == history[..j];
    }
  }

  ghost predicate Distinct(t: seq<ClientData>) {
    forall i, j :: 0 <= i < j < |t| ==> t[i].ip != t[j].ip || t[i].port != t[j].port
  }

  /** The table entry of one address is as the history says. */
  ghost predicate EntryIsRight(t: seq<ClientData>, history: seq<Packet>, ip: nat, port: nat) {
    var k := IndexOf(t, ip, port);
    if HowMany(history, ip, port) == 0 then k == |t|
    else
      && k < |t|
      && t[k].counter == HowMany(history[SessionStart(history, ip, port)..], ip, port)
  }

  lemma {:induction false} FirstIs(t: seq<ClientData>, ip: nat, port: nat, k: nat)
    requires k <= |t| && (k < |t| ==> Same(t[k], ip, port)) && forall i :: 0 <= i < k ==> !Same(t[i], ip, port)
    ensures IndexOf(t, ip, port) == k
  {
    if k > 0 {
      FirstIs(t[1..], ip, port, k - 1);
    }
  }

  lemma UpdateKeepsIndex(t: seq<ClientData>, k: nat, c: ClientData, ip: nat, port: nat)
    requires k < |t| && c.ip == t[k].ip && c.port == t[k].port
    ensures IndexOf(t[k := c], ip, port) == IndexOf(t, ip, port)
  {
    FirstIs(t[k := c], ip, port, IndexOf(t, ip, port));
  }

  lemma AppendKeepsIndex(t: seq<ClientData>, c: ClientData, ip: nat, port: nat)
    ensures IndexOf(t + [c], ip, port) ==
            if IndexOf(t, ip, port) < |t| then IndexOf(t, ip, port)
            else if Same(c, ip, port) then |t| else |t| + 1
  {
    var b := IndexOf(t, ip, port);
    FirstIs(t + [c], ip, port, if b < |t| then b else if Same(c, ip, port) then |t| else |t| + 1);
  }

  lemma HowManySuffix(history: seq<Packet>, k: nat, ip: nat, port: nat)
    requires history != [] && k < |history|
    ensures var init := history[..|history| - 1];
            HowMany(history[k..], ip, port) ==
            HowMany(init[k..], ip, port) + if From(history[|history| - 1], ip, port) then 1 else 0
  {
    var init := history[..|history| - 1];
    assert history[k..][..|history| - k - 1] == init[k..];
  }

  lemma NoneInEmpty(history: seq<Packet>, ip: nat, port: nat)
    ensures HowMany(history[|history|..], ip, port) == 0
  {
  }

  lemma {:induction false} CountersAreRight(history: seq<Packet>, ip: nat, port: nat)
    ensures Distinct(TableOf(history))
    ensures EntryIsRight(TableOf(history), history, ip, port)
  {
    if history != [] {
      var init, p := history[..|history| - 1], history[|history| - 1];
      CountersAreRight(init, ip, port);
      OnePacketMore(init, p, ip, port);
      assert history == init + [p];
    }
  }

  /** A packet leaves the entries of other addresses alone. */
  lemma OtherAddress(init: seq<Packet>, p: Packet, t: seq<ClientData>, ip: nat, port: nat)
    requires EntryIsRight(t, init, ip, port) && !From(p, ip, port)
    ensures EntryIsRight(Received(t, p), init + [p], ip, port)
  {
    var history := init + [p];
    assert history[..|history| - 1] == init;
    var k := IndexOf(t, p.ip, p.port);
    if k == |t| {
      AppendKeepsIndex(t, ClientData(p.ip, p.port, 1), ip, port);
    } else {
      UpdateKeepsIndex(t, k, Received(t, p)[k], ip, port);
    }
    HowManySuffix(history, SessionStart(history, ip, port), ip, port);
  }

  lemma SameAddress(init: seq<Packet>, p: Packet, t: seq<ClientData>)
    requires EntryIsRight(t, init, p.ip, p.port)
    ensures EntryIsRight(Received(t, p), init + [p], p.ip, p.port)
  {
    var history := init + [p];
    assert history[..|history| - 1] == init && history[..|init|] == init;
    var k := IndexOf(t, p.ip, p.port);
    if k == |t| {
      AppendKeepsIndex(t, ClientData(p.ip, p.port, 1), p.ip, p.port);
      NoResetBeforeFirst(init, p.ip, p.port);
    } else {
      UpdateKeepsIndex(t, k, Received(t, p)[k], p.ip, p.port);
    }
    var start := SessionStart(history, p.ip, p.port);
    if start < |history| {
      HowManySuffix(history, start, p.ip, p.port);
    } else {
      NoneInEmpty(history, p.ip, p.port);
    }
  }

  lemma {:induction false} NoResetBeforeFirst(history: seq<Packet>, ip: nat, port: nat)
    requires HowMany(history, ip, port) == 0
    ensures SessionStart(history, ip, port) == 0
    ensures HowMany(history[0..], ip, port) == 0
  {
    assert history[0..] == history;
    if history != [] {
      NoResetBeforeFirst(history[..|history| - 1], ip, port);
    }
  }

  lemma ReceivedStaysDistinct(t: seq<ClientData>, p: Packet)
    requires Distinct(t)
    ensures Distinct(Received(t, p))
  {
  }

  lemma OnePacketMore(init: seq<Packet>, p: Packet, ip: nat, port: nat)
    requires Distinct(TableOf(init)) && EntryIsRight(TableOf(init), init, ip, port)
    ensures Distinct(Received(TableOf(init), p))
    ensures EntryIsRight(Received(TableOf(init), p), init + [p], ip, port)
  {
    ReceivedStaysDistinct(TableOf(init), p);
    if From(p, ip, port) {
      SameAddress(init, p, TableOf(init));
    } else {
      OtherAddress(init, p, TableOf(init), ip, port);
    }
  }

  // ---------- the table in memory ----------

  class ClientTable {
    var list: array<ClientData>
    var count: nat

    ghost predicate Valid()
      reads this
    {
      count <= list.Length && list.Length >= INITIAL_CAPACITY
    }

    ghost function Contents(): seq<ClientData>
      requires Valid()
      reads this, list
    {
      list[..count]
    }

    constructor ()
      ensures Valid() && Contents() == [] && fresh(list)
    {
      list := new ClientData[INITIAL_CAPACITY](_ => ClientData(0, 0, 0));
      count := 0;
    }

    /** Doubles the capacity; the new half is cleared. */
    method ExpandClients()
      requires Valid()
      modifies this
      ensures Valid() && fresh(list) && list.Length == 2 * old(list.Length)
      ensures count == old(count) && Contents() == old(Contents())
      ensures forall i :: old(list.Length) <= i < list.Length ==> list[i] == ClientData(0, 0, 0)
    {
      var oldCapacity := list.Length;
      var tmp := new ClientData[oldCapacity * 2](_ => ClientData(0, 0, 0));
      var i := 0;
      while i < oldCapacity
        invariant 0 <= i <= oldCapacity && tmp[..i] == list[..i]
        invariant forall k :: oldCapacity <= k < tmp.Length ==> tmp[k] == ClientData(0, 0, 0)
        modifies tmp
      {
        tmp[i] := list[i];
        i := i + 1;
      }
      assert tmp[..count] == tmp[..i][..count] == list[..count];
      list := tmp;
    }

    /** Finds the sender or adds it, and keeps its counter. */
    method FindOrAddClient(p: Packet) returns (idx: nat, disconnected: bool)
      requires Valid()
      modifies this, list
      ensures Valid() && (list == old(list) || fresh(list))
      ensures Contents() == Received(old(Contents()), p)
      ensures idx == IndexOf(old(Contents()), p.ip, p.port) && idx < count
      ensures disconnected <==> idx < old(count) && IsDisconnect(p)
    {
      ghost var t := Contents();
      disconnected := false;
      var i := 0;
      while i < count && !(list[i].ip == p.ip && list[i].port == p.port)
        invariant 0 <= i <= count
        invariant forall k :: 0 <= k < i ==> !Same(t[k], p.ip, p.port)
        modifies {}
      {
        i := i + 1;
      }
      idx := i;
      if i == count {
        if count == list.Length {
          ExpandClients();
        }
        list[i] := ClientData(p.ip, p.port, 1);
        count := count + 1;
        assert list[..count] == t + [ClientData(p.ip, p.port, 1)];
      } else if IsDisconnect(p) {
        list[i] := list[i].(counter := 0);
        disconnected := true;
      } else {
        list[i] := list[i].(counter := list[i].counter + 1);
      }
    }

    /** The table after any packets at all. */
    method ReceiveAll(history: seq<Packet>)
      requires Valid() && Contents() == []
      modifies this, list
      ensures Valid() && Contents() == TableOf(history)
    {
      var i := 0;
      while i < |history|
        invariant 0 <= i <= |history| && Valid()
        invariant list == old(list) || fresh(list)
        invariant Contents() == TableOf(history[..i])
      {
        assert history[..i + 1][..i] == history[..i];
        var _, _ := FindOrAddClient(history[i]);
        i := i + 1;
      }
      assert history[..i] == history;
    }
  }
}
