/** The customer directory: a doubly linked list of nodes on the heap. */
module CustomerList {

  datatype Record = Record(name: string, secondName: string, tel: string)

  class Customer {
    const record: Record
    var prev: Customer?
    var next: Customer?

    constructor (record: Record)
      ensures this.record == record && prev == null && next == null
    {
      this.record, prev, next := record, null, null;
    }
  }

  function At(spine: seq<Customer>, i: int): Customer? {
    if 0 <= i < |spine| then spine[i] else null
  }

  /** The i-th node points forward to the one after it and back to the one before it. */
  ghost predicate Linked(spine: seq<Customer>, i: int)
    requires 0 <= i < |spine|
    reads spine[i]
  {
    spine[i].next == At(spine, i + 1) && spine[i].prev == At(spine, i - 1)
  }

  ghost function Records(spine: seq<Customer>): (r: seq<Record>)
    ensures |r| == |spine| && forall i :: 0 <= i < |spine| ==> r[i] == spine[i].record
  {
    seq(|spine|, i requires 0 <= i < |spine| => spine[i].record)
  }

  class Directory {
    var head: Customer?
    /** The nodes from the head on. */
    ghost var spine: seq<Customer>

    ghost predicate Valid()
      reads this, spine
    {
      && head == At(spine, 0)
      && (forall i :: 0 <= i < |spine| ==> Linked(spine, i))
      && (forall i, j :: 0 <= i < j < |spine| ==> spine[i] != spine[j])
    }

    constructor ()
      ensures Valid() && spine == []
    {
      head, spine := null, [];
    }

    method LastNode() returns (last: Customer)
      requires Valid() && head != null
      ensures spine != [] && last == spine[|spine| - 1]
    {
      last := head;
      ghost var i := 0;
      assert Linked(spine, 0);
      while last.next != null
        invariant 0 <= i < |spine| && last == spine[i] && Linked(spine, i)
        decreases |spine| - i
      {
        last, i := last.next, i + 1;
      }
    }

    /** Appends a customer at the end. */
    method AddCustomer(record: Record)
      requires Valid()
      modifies this, spine
      ensures Valid()
      ensures |spine| == |old(spine)| + 1 && spine[..|old(spine)|] == old(spine) && fresh(spine[|old(spine)|])
      ensures Records(spine) == Records(old(spine)) + [record]
    {
      var node := new Customer(record);
      ghost var was := spine;
      if head == null {
        head := node;
        assert was == [];
      } else {
        var last := LastNode();
        last.next := node;
        node.prev := last;
      }
      spine := was + [node];
      forall k | 0 <= k < |spine| ensures Linked(spine, k) {
        if k < |was| {
          assert old(Linked(was, k));
        }
      }
    }

    /** Walks to position n, counted from 1. */
    method Walk(n: int) returns (current: Customer?)
      requires Valid() && n >= 1
      ensures current == At(spine, n - 1)
    {
      current := head;
      var i := 1;
      while current != null && i < n
        invariant 1 <= i <= n && current == At(spine, i - 1)
        decreases n - i
      {
        assert Linked(spine, i - 1);
        current := current.next;
        i := i + 1;
      }
    }

    /** Removes the customer at position n, counted from 1; a position out of range changes
        nothing. */
    method DeleteCustomer(n: int) returns (ok: bool)
      requires Valid()
      modifies this, spine
      ensures Valid()
      ensures ok <==> 1 <= n <= |old(spine)|
      ensures spine == if ok then old(spine)[..n - 1] + old(spine)[n..] else old(spine)
      ensures Records(spine) == if ok then Records(old(spine))[..n - 1] + Records(old(spine))[n..] else Records(old(spine))
    {
      if n < 1 { return false; }
      var current := Walk(n);
      if current == null { return false; }
      ghost var was := spine;
      Unlink(current, n - 1);
      assert Records(spine) == Records(was)[..n - 1] + Records(was)[n..];
      return true;
    }

    /** Takes a node out of the chain, mending both neighbours. */
    method Unlink(current: Customer, ghost i: nat)
      requires Valid() && i < |spine| && current == spine[i]
      modifies this, spine
      ensures Valid() && spine == old(spine)[..i] + old(spine)[i + 1..]
    {
      ghost var was := spine;
      assert Linked(was, i);
      if current.prev != null {
        current.prev.next := current.next;
      } else {
        head := current.next;
      }
      if current.next != null {
        current.next.prev := current.prev;
      }
      spine := was[..i] + was[i + 1..];
      forall k | 0 <= k < |spine| ensures Linked(spine, k) {
        assert old(Linked(was, if k < i then k else k + 1));
      }
    }

    /** The loop at exit: it visits every node once, in order, and leaves nothing. */
    method FreeAll() returns (ghost freed: seq<Customer>)
      requires Valid()
      modifies this
      ensures freed == old(spine) && Valid() && spine == [] && head == null
    {
      freed := [];
      ghost var was := spine;
      while head != null
        invariant |freed| <= |was| && freed == was[..|freed|]
        invariant head == At(was, |freed|)
        invariant forall i :: 0 <= i < |was| ==> Linked(was, i)
        decreases |was| - |freed|
      {
        var tmp := head;
        assert Linked(was, |freed|);
        head := head.next;
        freed := freed + [tmp];
      }
      spine := [];
    }
  }

  // ---------- whole sessions ----------

  datatype Command = Add(record: Record) | Delete(n: int)

  function Effect(rs: seq<Record>, c: Command): seq<Record> {
    match c
    case Add(r) => rs + [r]
    case Delete(n) => if 1 <= n <= |rs| then rs[..n - 1] + rs[n..] else rs
  }

  function Session(commands: seq<Command>): seq<Record> {
    if commands == [] then [] else Effect(Session(commands[..|commands| - 1]), commands[|commands| - 1])
  }

  /** Any session keeps the chain sound and its contents as the commands say. */
  method RunSession(commands: seq<Command>) returns (d: Directory)
    ensures d.Valid() && Records(d.spine) == Session(commands)
  {
    d := new Directory();
    var i := 0;
    assert commands[..0] == [];
    while i < |commands|
      invariant 0 <= i <= |commands| && fresh(d) && d.Valid()
      invariant fresh(set c | c in d.spine)
      invariant Records(d.spine) == Session(commands[..i])
    {
      assert commands[..i + 1][..i] == commands[..i];
      match commands[i] {
        case Add(r) => d.AddCustomer(r);
        case Delete(n) => var _ := d.DeleteCustomer(n);
      }
      i := i + 1;
    }
    assert commands[..i] == commands;
  }
}
