/** The message-queue chat server as it runs: a wrapping history array, a linked list of
    clients, and a dispatcher. */
module ChatServer {
  import opened Basics
  import opened CText
  import opened ChatSpec

  /** The last entries pushed, at most 256 of them, in a ring. */
  class History {
    const slots: array<Entry>
    var start: nat
    var count: nat

    ghost predicate Valid()
      reads this
    {
      slots.Length == HISTORY && start < HISTORY && count <= HISTORY
    }

    /** The entry that is i-th oldest. */
    function At(i: nat): Entry
      requires Valid() && i < count
      reads this, slots
    {
      slots[Ring(start, i)]
    }

    /** The ring holds exactly the last 256 of `pushed`. */
    ghost predicate Holds(pushed: seq<Entry>)
      reads this, slots
    {
      && Valid()
      && count == |Recent(pushed)|
      && forall i :: 0 <= i < count ==> At(i) == Stored(Recent(pushed)[i])
    }

    constructor ()
      ensures Holds([]) && fresh(slots)
    {
      slots := new Entry[HISTORY](_ => Entry("", ""));
      start, count := 0, 0;
    }

    /** Overwrites the oldest entry once the ring is full. */
    method Push(e: Entry)
      requires Valid()
      modifies this, slots
      ensures Valid() && count == if old(count) == HISTORY then HISTORY else old(count) + 1
      ensures At(count - 1) == e
      ensures forall i :: 0 <= i < count - 1 ==> At(i) == if old(count) == HISTORY then old(At(i + 1)) else old(At(i))
    {
      var idx := (start + count) % HISTORY;
      ModIsRing(start, count);
      if count == HISTORY {
        ModIsRing(start, 1);
        start := (start + 1) % HISTORY;
        idx := (start + count - 1) % HISTORY;
        ModIsRing(start, count - 1);
      } else {
        count := count + 1;
      }
      slots[idx] := e;
    }

    method PushHistory(sender: string, text: string, ghost pushed: seq<Entry>)
      requires Holds(pushed)
      modifies this, slots
      ensures Holds(pushed + [Entry(sender, text)])
    {
      ghost var e := Entry(sender, text);
      ghost var was := Recent(pushed);
      RecentGrows(pushed, e);
      Push(Entry(Cut(sender, NAME_LEN), Cut(text, TEXT_LEN)));
      assert forall i :: 0 <= i < count - 1 ==>
          Recent(pushed + [e])[i] == if |was| == HISTORY then was[i + 1] else was[i];
    }
  }

  function Ring(start: nat, i: nat): nat {
    if start + i < HISTORY then start + i else start + i - HISTORY
  }

  lemma ModIsRing(start: nat, i: nat)
    requires start < HISTORY && i <= HISTORY
    ensures (start + i) % HISTORY == Ring(start, i)
  {
  }

  lemma RecentGrows(log: seq<Entry>, e: Entry)
    ensures var r := Recent(log);
            Recent(log + [e]) == (if |r| == HISTORY then r[1..] else r) + [e]
  {
  }

  // ---------- the linked list of clients ----------

  class ClientNode {
    const qname: string
    var mqd: int
    var next: ClientNode?

    constructor (qname: string, mqd: int, next: ClientNode?)
      ensures this.qname == qname && this.mqd == mqd && this.next == next
    {
      this.qname, this.mqd, this.next := qname, mqd, next;
    }
  }

  ghost function NamesOf(spine: seq<ClientNode>): (s: seq<string>)
    ensures |s| == |spine|
    ensures forall i :: 0 <= i < |spine| ==> s[i] == spine[i].qname
  {
    seq(|spine|, i requires 0 <= i < |spine| => spine[i].qname)
  }

  /** The i-th node points to the one after it. */
  ghost predicate Linked(spine: seq<ClientNode>, i: int)
    requires 0 <= i < |spine|
    reads spine[i]
  {
    spine[i].next == if i + 1 < |spine| then spine[i + 1] else null
  }

  class Registry {
    var head: ClientNode?
    /** The nodes from the head on. */
    ghost var spine: seq<ClientNode>

    ghost predicate Valid()
      reads this, spine
    {
      && (head == if spine == [] then null else spine[0])
      && (forall i :: 0 <= i < |spine| ==> Linked(spine, i))
      && (forall i, j :: 0 <= i < j < |spine| ==> spine[i] != spine[j])
      && Distinct(NamesOf(spine))
    }

    constructor ()
      ensures Valid() && spine == []
    {
      head, spine := null, [];
    }

    method FindClientByName(qname: string) returns (c: ClientNode?)
      requires Valid()
      ensures c == null <==> qname !in NamesOf(spine)
      ensures c != null ==> c in spine && c.qname == qname
    {
      c := head;
      ghost var i := 0;
      while c != null
        invariant 0 <= i <= |spine|
        invariant c == if i < |spine| then spine[i] else null
        invariant forall k :: 0 <= k < i ==> NamesOf(spine)[k] != qname
        decreases |spine| - i
      {
        if c.qname == qname { return; }
        assert Linked(spine, i);
        c, i := c.next, i + 1;
      }
    }

    method AddOrUpdateClient(qname: string, mqd: int)
      requires Valid()
      modifies this, spine
      ensures Valid()
      ensures NamesOf(spine) == if qname in old(NamesOf(spine)) then old(NamesOf(spine)) else [qname] + old(NamesOf(spine))
      ensures forall c :: c in spine ==> c in old(spine) || (fresh(c) && c.qname == qname)
      ensures forall c :: c in spine && c.qname == qname ==> c.mqd == mqd
      ensures forall c :: c in old(spine) && c.qname != qname ==> c.mqd == old(c.mqd)
    {
      var c := FindClientByName(qname);
      if c == null {
        c := new ClientNode(qname, mqd, head);
        head := c;
        ghost var was := spine;
        spine := [c] + spine;
        assert NamesOf(spine) == [qname] + NamesOf(was);
        forall k | 0 <= k < |spine| ensures Linked(spine, k) {
          if k > 0 {
            assert old(Linked(was, k - 1));
          }
        }
      } else {
        c.mqd := mqd;
        forall k | 0 <= k < |spine| ensures Linked(spine, k) {
          assert old(Linked(spine, k));
        }
        forall d | d in spine && d.qname == qname ensures d.mqd == mqd {
          var i :| 0 <= i < |spine| && spine[i] == c;
          var j :| 0 <= j < |spine| && spine[j] == d;
          assert NamesOf(spine)[i] == NamesOf(spine)[j];
        }
      }
    }

    /** Walks to the client and remembers the node before it. */
    method Locate(qname: string) returns (prev: ClientNode?, cur: ClientNode?, ghost i: nat)
      requires Valid()
      ensures i <= |spine|
      ensures cur == if i < |spine| then spine[i] else null
      ensures prev == if i > 0 then spine[i - 1] else null
      ensures forall k :: 0 <= k < i ==> NamesOf(spine)[k] != qname
      ensures cur != null ==> cur.qname == qname
    {
      prev, cur, i := null, head, 0;
      while cur != null && cur.qname != qname
        invariant 0 <= i <= |spine|
        invariant cur == if i < |spine| then spine[i] else null
        invariant prev == if i > 0 then spine[i - 1] else null
        invariant forall k :: 0 <= k < i ==> NamesOf(spine)[k] != qname
        decreases |spine| - i
      {
        assert Linked(spine, i);
        prev, cur, i := cur, cur.next, i + 1;
      }
    }

    /** Unlinks the client, whether it is the head or further down. */
    method RemoveClientByName(qname: string) returns (gone: ClientNode?)
      requires Valid()
      modifies this, spine
      ensures Valid()
      ensures gone == null <==> qname !in old(NamesOf(spine))
      ensures gone == null ==> spine == old(spine)
      ensures gone != null ==> gone in old(spine) && gone.qname == qname
      ensures forall c :: c in spine <==> c in old(spine) && c != gone
      ensures NamesOf(spine) == Unlisted(old(NamesOf(spine)), qname)
      ensures forall c :: c in old(spine) ==> c.mqd == old(c.mqd)
    {
      var prev, cur, i := Locate(qname);
      gone := cur;
      UnlistedAt(NamesOf(spine), qname, i);
      if cur != null {
        TakenOut(spine, i);
        Unlink(prev, cur, i);
      }
    }

    method Unlink(prev: ClientNode?, cur: ClientNode, ghost i: nat)
      requires Valid() && i < |spine| && cur == spine[i] && prev == if i > 0 then spine[i - 1] else null
      modifies this, spine
      ensures Valid() && spine == old(spine)[..i] + old(spine)[i + 1..]
      ensures forall c :: c in old(spine) ==> c.mqd == old(c.mqd)
    {
      ghost var was := spine;
      TakenOut(was, i);
      assert Linked(was, i);
      if prev == null {
        head := cur.next;
      } else {
        prev.next := cur.next;
      }
      spine := was[..i] + was[i + 1..];
      forall k | 0 <= k < |spine| ensures Linked(spine, k) {
        assert old(Linked(was, if k < i then k else k + 1));
      }
    }
  }

  lemma TakenOut(was: seq<ClientNode>, i: nat)
    requires i < |was| && forall k, l :: 0 <= k < l < |was| ==> was[k] != was[l]
    ensures var now := was[..i] + was[i + 1..];
            && NamesOf(now) == NamesOf(was)[..i] + NamesOf(was)[i + 1..]
            && (forall k :: 0 <= k < |now| ==> now[k] == if k < i then was[k] else was[k + 1])
            && (forall c :: c in now <==> c in was && c != was[i])
            && (Distinct(NamesOf(was)) ==> Distinct(NamesOf(now)))
  {
    var now := was[..i] + was[i + 1..];
    forall c | c in was && c != was[i] ensures c in now {
      var k :| 0 <= k < |was| && was[k] == c;
      assert now[if k < i then k else k - 1] == c;
    }
  }

  lemma {:induction false} UnlistedAt(names: seq<string>, q: string, i: nat)
    requires i <= |names| && (forall k :: 0 <= k < i ==> names[k] != q) && (i < |names| ==> names[i] == q)
    ensures Unlisted(names, q) == if i < |names| then names[..i] + names[i + 1..] else names
  {
    if i > 0 {
      UnlistedAt(names[1..], q, i - 1);
    }
  }
}
