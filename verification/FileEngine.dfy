/** The file engine itself: a file system that the engine changes in place, call by call. */
module FileEngine {
  import opened Basics
  import opened Paths
  import opened FileTree
  import opened FileProgress

  /** `names` is one possible outcome of reading directory `d`: its entries and the two
      dot entries, in some order. */
  ghost predicate Listing(m: Fs, d: Path, names: seq<Name>) {
    && Distinct(names)
    && (forall n :: n in names <==> ChildIn(m, d, n) || !Legal(n))
  }

  /** The entries proper among these names. */
  ghost function LegalAmong(names: seq<Name>): set<Name> {
    set n | n in names && Legal(n)
  }

  lemma NextName(names: seq<Name>, i: nat)
    requires Distinct(names) && i < |names|
    ensures names[i] !in LegalAmong(names[..i])
    ensures LegalAmong(names[..i + 1]) == LegalAmong(names[..i]) + if Legal(names[i]) then {names[i]} else {}
  {
    assert names[..i + 1] == names[..i] + [names[i]];
  }

  class FileSystem {
    var m: Fs
    /** Number of calls issued so far. */
    var calls: nat
    const env: Environment
    /** How many calls other than rename have been refused. */
    ghost var refused: nat
    /** The same, not counting an opendir of an empty directory. */
    ghost var cuts: nat

    constructor (initial: Fs, env: Environment)
      ensures m == initial && calls == 0 && this.env == env
    {
      m, calls := initial, 0;
      this.env := env;
      refused, cuts := 0, 0;
    }

    predicate Refuses(c: Call, t: nat) {
      RefusedBy(env, c, t)
    }

    /** The counters after call `c` was issued as number `t`. */
    ghost predicate Noted(c: Call, t: nat, refused0: nat, cuts0: nat)
      reads this
    {
      && calls == t + 1
      && refused == refused0 + (if Refuses(c, t) then 1 else 0)
      && cuts == cuts0 + (if Refuses(c, t) then 1 else 0)
    }

    ghost predicate Rising(t0: nat, refused0: nat, cuts0: nat)
      reads this
    {
      t0 <= calls && refused0 <= refused && cuts0 <= cuts
    }

    // ---------- when the engine returns 0: the calls before the first entry succeed ----------

    /** For a move started as call number `t`. */
    ghost predicate MoveGetsGoing(m: Fs, src: Path, dst: Path, t: nat) {
      && src in m && !Refuses(Stat(src), t)
      && (|| src == dst
          || (CanRename(m, src, dst) && !Refuses(Rename(src, dst), t + 1))
          || HandGetsGoing(m, src, dst, t + 2))
    }

    ghost predicate CopyGetsGoing(m: Fs, src: Path, dst: Path, t: nat) {
      src in m && !Refuses(Stat(src), t) && HandGetsGoing(m, src, dst, t + 1)
    }

    ghost predicate DeleteGetsGoing(m: Fs, d: Path, t: nat) {
      d in m && !Refuses(Stat(d), t) && (m[d].Dir? ==> !Refuses(Opendir(d), t + 1))
    }

    /** Without rename: mkdir and opendir for a directory, the two opens for a file. */
    ghost predicate HandGetsGoing(m: Fs, src: Path, dst: Path, t: nat)
      requires src in m
    {
      if m[src].Dir? then DirGetsGoing(m, src, dst, t) else FileGetsGoing(m, src, dst, t)
    }

    ghost predicate DirGetsGoing(m: Fs, src: Path, dst: Path, t: nat) {
      CanMkdir(m, dst) && !Refuses(Mkdir(dst), t) && !Refuses(Opendir(src), t + 1)
    }

    ghost predicate FileGetsGoing(m: Fs, src: Path, dst: Path, t: nat) {
      CanOpenWrite(m, dst) && !Refuses(OpenRead(src), t) && !Refuses(OpenWrite(dst), t + 1)
    }

    /** The new directory is made; whatever goes wrong next, it stays. */
    ghost predicate LeavesDir(m: Fs, src: Path, dst: Path, t: nat) {
      Get(m, src) == Some(Dir) && CanMkdir(m, dst) && !Refuses(Mkdir(dst), t)
    }

    /** No stat of `p` ever succeeds. */
    ghost predicate Unseen(p: Path) {
      forall t :: Refuses(Stat(p), t)
    }

    /** An entry that is never seen has no copy. */
    ghost predicate SkippedAt(m: Fs, src: Path, dst: Path, n: Name) {
      Unseen(src + [n]) ==> !ChildIn(m, dst, n)
    }

    ghost predicate UnseenSkipped(m: Fs, src: Path, dst: Path, done: set<Name>) {
      forall n {:trigger SkippedAt(m, src, dst, n)} :: n in done ==> SkippedAt(m, src, dst, n)
    }

    ghost predicate SkipsUnseen(m0: Fs, m: Fs, src: Path, dst: Path) {
      forall n {:trigger SkippedAt(m, src, dst, n)} :: ChildIn(m0, src, n) ==> SkippedAt(m, src, dst, n)
    }

    lemma UnseenTurn(mb: Fs, m: Fs, src: Path, dst: Path, done: set<Name>, n: Name)
      requires UnseenSkipped(mb, src, dst, done)
      requires CopyOnlyAdds(mb, m, src + [n], dst + [n])
      requires dst + [n] !in mb && (Unseen(src + [n]) ==> m == mb)
      ensures UnseenSkipped(m, src, dst, done + {n})
    {
      OthersUncopied(mb, m, src, dst, n);
      forall k | k in done + {n} ensures SkippedAt(m, src, dst, k) {
        assert k in done ==> SkippedAt(mb, src, dst, k);
      }
    }

    // ---------- system calls ----------

    method StatCall(p: Path) returns (st: Option<Node>)
      modifies `calls, `refused, `cuts
      ensures st == if Refuses(Stat(p), old(calls)) then None else Get(m, p)
      ensures Noted(Stat(p), old(calls), old(refused), old(cuts))
    {
      st := if Refuses(Stat(p), calls) then None else Get(m, p);
      Count(Stat(p));
    }

    /** Counts one call and notes its refusal. */
    method Count(c: Call)
      modifies `calls, `refused, `cuts
      ensures Noted(c, old(calls), old(refused), old(cuts))
    {
      if Refuses(c, calls) {
        refused, cuts := refused + 1, cuts + 1;
      }
      calls := calls + 1;
    }

    method RenameCall(src: Path, dst: Path) returns (ok: bool)
      modifies `m, `calls
      ensures ok <==> CanRename(old(m), src, dst) && !Refuses(Rename(src, dst), old(calls))
      ensures m == if ok then Relocated(old(m), src, dst) else old(m)
      ensures calls == old(calls) + 1
    {
      ok := !Refuses(Rename(src, dst), calls) && src in m && src != [] && HasParentDir(m, dst)
        && (src <= dst ==> src == dst);
      if ok && dst in m {
        var names := Entries(dst);
        ok := m[src].File? == m[dst].File? && (m[dst].Dir? && src != dst ==> names == {});
        assert names == {} <==> Childless(m, dst) by {
          assert forall n :: ChildIn(m, dst, n) <==> n in names;
        }
      }
      if ok { m := Relocated(m, src, dst); }
      calls := calls + 1;
    }

    method MkdirCall(p: Path) returns (ok: bool)
      modifies this
      ensures ok <==> CanMkdir(old(m), p) && !Refuses(Mkdir(p), old(calls))
      ensures m == if ok then old(m)[p := Dir] else old(m)
      ensures Noted(Mkdir(p), old(calls), old(refused), old(cuts))
    {
      ok := CanMkdir(m, p) && !Refuses(Mkdir(p), calls);
      if ok { m := m[p := Dir]; }
      Count(Mkdir(p));
    }

    method UnlinkCall(p: Path) returns (ok: bool)
      modifies this
      ensures ok <==> p in old(m) && old(m)[p].File? && !Refuses(Unlink(p), old(calls))
      ensures m == if ok then old(m) - {p} else old(m)
      ensures Noted(Unlink(p), old(calls), old(refused), old(cuts))
    {
      ok := p in m && m[p].File? && !Refuses(Unlink(p), calls);
      if ok { m := m - {p}; }
      Count(Unlink(p));
    }

    method RmdirCall(p: Path) returns (ok: bool)
      modifies this
      ensures ok <==> CanRmdir(old(m), p) && !Refuses(Rmdir(p), old(calls))
      ensures m == if ok then old(m) - {p} else old(m)
      ensures Noted(Rmdir(p), old(calls), old(refused), old(cuts))
    {
      var names := Entries(p);
      assert names == {} <==> Childless(m, p) by {
        assert forall n :: ChildIn(m, p, n) <==> n in names;
      }
      ok := p != [] && Get(m, p) == Some(Dir) && names == {} && !Refuses(Rmdir(p), calls);
      if ok { m := m - {p}; }
      Count(Rmdir(p));
    }

    method Entries(d: Path) returns (names: set<Name>)
      ensures forall n :: n in names <==> ChildIn(m, d, n)
    {
      names := set p | p in m && |p| == |d| + 1 && d <= p :: p[|d|];
      forall n ensures n in names <==> ChildIn(m, d, n) {
        if n in names {
          var p :| p in m && |p| == |d| + 1 && d <= p && p[|d|] == n;
          assert p == d + [n];
        }
        if ChildIn(m, d, n) {
          assert (d + [n])[|d|] == n;
        }
      }
    }

    /** Opens and reads a whole directory, in an order of the environment's choosing. */
    method OpendirCall(d: Path) returns (names: Option<seq<Name>>)
      requires WellFormed(m)
      modifies `calls, `refused, `cuts
      ensures names.None? <==> Refuses(Opendir(d), old(calls)) || Get(m, d) != Some(Dir)
      ensures names.Some? ==> Listing(m, d, names.value)
      ensures calls == old(calls) + 1
      ensures refused == old(refused) + (if Refuses(Opendir(d), old(calls)) then 1 else 0)
      ensures cuts == old(cuts) + (if Refuses(Opendir(d), old(calls)) && !Childless(m, d) then 1 else 0)
    {
      if Refuses(Opendir(d), calls) || Get(m, d) != Some(Dir) {
        names := None;
      } else {
        var left := Entries(d);
        forall n | n in left ensures Legal(n) {
          assert ChildIn(m, d, n) && LegalPath(d + [n]);
          assert (d + [n])[|d|] == n;
        }
        left := left + {".", ".."};
        ghost var all := left;
        var s := [];
        while left != {}
          invariant forall n :: n in all <==> n in s || n in left
          invariant forall n :: n in s ==> n !in left
          invariant Distinct(s)
        {
          var n :| n in left;
          s, left := s + [n], left - {n};
        }
        names := Some(s);
      }
      if Refuses(Opendir(d), calls) {
        refused, cuts := refused + 1, cuts + if Childless(m, d) then 0 else 1;
      }
      calls := calls + 1;
    }

    /** Copies a file block by block.  The destination is truncated before the first read,
        so a file copied onto itself is emptied. */
    method CopyFile(src: Path, dst: Path) returns (r: int)
      requires src in m ==> m[src].File?
      modifies this
      ensures r == 0 || r == -1
      ensures r == 0 <==> && src in old(m) && !Refuses(OpenRead(src), old(calls))
                          && CanOpenWrite(old(m), dst) && !Refuses(OpenWrite(dst), old(calls) + 1)
      ensures r == 0 ==> m == old(m)[dst := if src == dst then File([]) else old(m)[src]]
      ensures r == 0 ==> (Get(m, dst) == Get(old(m), src) <==> src != dst || old(m)[src] == File([]))
      ensures r == -1 ==> m == old(m)
      ensures r == 0 ==> calls == old(calls) + 2
      ensures r == -1 && src in old(m) && CanOpenWrite(old(m), dst) ==>
                || Refuses(OpenRead(src), old(calls))
                || (calls == old(calls) + 2 && Refuses(OpenWrite(dst), old(calls) + 1))
      ensures Rising(old(calls), old(refused), old(cuts)) && old(calls) < calls
      ensures src in old(m) && CanOpenWrite(old(m), dst) ==>
                (refused > old(refused) <==> r == -1) && (cuts > old(cuts) <==> r == -1)
    {
      Count(OpenRead(src));
      if src !in m || Refuses(OpenRead(src), calls - 1) { return -1; }
      Count(OpenWrite(dst));
      if !CanOpenWrite(m, dst) || Refuses(OpenWrite(dst), calls - 1) { return -1; }
      m := m[dst := File([])];
      var pos := 0;
      while pos < |m[src].content|
        invariant src in m && m[src] == if src == dst then File([]) else old(m)[src]
        invariant 0 <= pos <= |m[src].content|
        invariant m == old(m)[dst := File(m[src].content[..pos])]
        invariant calls == old(calls) + 2 && refused == old(refused) && cuts == old(cuts)
      {
        var end := if pos + BLOCK < |m[src].content| then pos + BLOCK else |m[src].content|;
        var buf := m[src].content[pos..end];
        m := m[dst := File(m[dst].content + buf)];
        pos := end;
        assert m[src].content[..pos] == m[dst].content;
      }
      assert m[src].content[..pos] == m[src].content;
      return 0;
    }

    // ---------- process_tree ----------

    method MoveTree(src: Path, dst: Path) returns (r: int)
      requires WellFormed(m) && LegalPath(dst)
      requires src <= dst ==> src == dst
      modifies this
      ensures WellFormed(m)
      ensures NothingLost(old(m), m, src, dst)
      ensures r == if MoveGetsGoing(old(m), src, dst, old(calls)) then 0 else -1
      ensures r == -1 ==> forall p :: src <= p ==> Get(m, p) == Get(old(m), p)
      ensures r == -1 ==>
                m == if !Refuses(Stat(src), old(calls)) && LeavesDir(old(m), src, dst, old(calls) + 2)
                     then old(m)[dst := Dir] else old(m)
      ensures src == dst ==> m == old(m)
      ensures refused == old(refused) && src != dst ==>
                if MoveSucceeds(old(m), src, dst, Refuses(Rename(src, dst), old(calls) + 1))
                then r == 0 && m == Relocated(old(m), src, dst)
                else r == -1 && m == old(m)
      ensures src != dst && CanMove(old(m), src, dst) ==> (refused > old(refused) <==> src in m)
      ensures src != dst && src in old(m) && old(m)[src].File? ==>
                (src in m <==> || r == -1
                               || (Refuses(Rename(src, dst), old(calls) + 1) && Refuses(Unlink(src), old(calls) + 4)))
      ensures src != dst && !CanMove(old(m), src, dst) ==>
                m == if r == 0 then Relocated(old(m), src, dst) else old(m)
      ensures Rising(old(calls), old(refused), old(cuts))
      ensures src != dst && CanMove(old(m), src, dst) ==>
                MoveProgress(env, old(calls), calls, old(m), m, src, dst)
      decreases Under(m, src), 3
    {
      ghost var m0 := m;
      ghost var t0 := calls;
      var st := StatCall(src);
      if st.None? {
        if src in m0 {
          StoppedMove(env, t0, calls, m0, m, src, dst, Stat(src), t0);
        }
        return -1;
      }
      if src == dst { return 0; }
      RenameDecides(m0, src, dst);
      var ok := RenameCall(src, dst);
      if ok {
        RenameKeepsWellFormed(m0, src, dst);
        RenameLosesNothing(m0, src, dst);
        RenameApart(m0, src, dst);
        RelocatedAt(m0, src, dst, src);
        if CanMove(m0, src, dst) {
          WholeMoveProgress(env, t0, calls, m0, src, dst);
        }
        return 0;
      }
      ghost var u0 := calls;
      if st.value.Dir? {
        r := MoveDirByHand(src, dst);
      } else {
        r := MoveFileByHand(src, dst);
      }
      if CanMove(m0, src, dst) {
        MoveProgressLater(env, t0, u0, calls, m0, m, src, dst);
      }
    }

    /** The fallback for a file: copy, and unlink only if the copy was made. */
    method MoveFileByHand(src: Path, dst: Path) returns (r: int)
      requires WellFormed(m) && LegalPath(dst) && !(src <= dst)
      requires src in m && m[src].File?
      modifies this
      ensures WellFormed(m)
      ensures NothingLost(old(m), m, src, dst)
      ensures r == if FileGetsGoing(old(m), src, dst, old(calls)) then 0 else -1
      ensures r == -1 ==> m == old(m)
      ensures refused == old(refused) ==>
                m == if CanMove(old(m), src, dst) then Relocated(old(m), src, dst) else old(m)
      ensures CanMove(old(m), src, dst) ==> (refused > old(refused) <==> src in m)
      ensures src in m <==> r == -1 || Refuses(Unlink(src), old(calls) + 2)
      ensures Rising(old(calls), old(refused), old(cuts))
      ensures CanMove(old(m), src, dst) ==> MoveProgress(env, old(calls), calls, old(m), m, src, dst)
    {
      ghost var m0, t0 := m, calls;
      var c := CopyFile(src, dst);
      if c == 0 {
        FileCanRename(m0, src, dst);
        FileReplaced(m0, dst, m0[src]);
        CopyUnlinkIsRelocation(m0, src, dst);
        RenameKeepsWellFormed(m0, src, dst);
        RenameLosesNothing(m0, src, dst);
        var _ := UnlinkCall(src);
        TopPasses(env, t0, calls, src, dst, Unlink(src), t0 + 2);
        FileMoveProgress(env, t0, calls, m0, m, src, dst);
        return 0;
      }
      if CanMove(m0, src, dst) {
        FileCanRename(m0, src, dst);
        OpensPass(t0, src, dst);
        FileMoveProgress(env, t0, calls, m0, m, src, dst);
      }
      return -1;
    }

    /** Opens that are refused stand in the way of the file. */
    lemma OpensPass(t0: nat, src: Path, dst: Path)
      requires t0 < calls && (Refuses(OpenRead(src), t0) || (t0 + 1 < calls && Refuses(OpenWrite(dst), t0 + 1)))
      ensures !Passes(env, t0, calls, src, dst, src)
    {
      TopPasses(env, t0, calls, src, dst, OpenRead(src), t0);
      if t0 + 1 < calls {
        TopPasses(env, t0, calls, src, dst, OpenWrite(dst), t0 + 1);
      }
    }

    /** The fallback for a directory: mkdir, move each entry, rmdir. */
    method MoveDirByHand(src: Path, dst: Path) returns (r: int)
      requires WellFormed(m) && LegalPath(dst) && !(src <= dst)
      requires Get(m, src) == Some(Dir)
      modifies this
      ensures WellFormed(m)
      ensures NothingLost(old(m), m, src, dst)
      ensures r == if DirGetsGoing(old(m), src, dst, old(calls)) then 0 else -1
      ensures r == -1 ==> forall p :: src <= p ==> Get(m, p) == Get(old(m), p)
      ensures r == -1 ==> m == if LeavesDir(old(m), src, dst, old(calls)) then old(m)[dst := Dir] else old(m)
      ensures refused == old(refused) ==>
                m == if CanMkdir(old(m), dst) then Relocated(old(m), src, dst) else old(m)
      ensures CanMkdir(old(m), dst) ==> (refused > old(refused) <==> src in m)
      ensures !CanMkdir(old(m), dst) ==> m == old(m)
      ensures Rising(old(calls), old(refused), old(cuts))
      ensures CanMkdir(old(m), dst) ==> MoveProgress(env, old(calls), calls, old(m), m, src, dst)
      decreases Under(m, src), 2
    {
      ghost var m0, t0 := m, calls;
      var ok := MkdirCall(dst);
      if !ok {
        if CanMkdir(m0, dst) {
          StoppedMove(env, t0, calls, m0, m, src, dst, Mkdir(dst), t0);
        }
        return -1;
      }
      DirMade(m0, dst);
      MoveBegun(m0, src, dst);
      ghost var u0 := calls;
      ok := MoveEntries(m0, src, dst);
      if !ok {
        StoppedMove(env, t0, calls, m0, m, src, dst, Opendir(src), t0 + 1);
        return -1;
      }
      RelocatedAt(m0, src, dst, src);
      ghost var m1, t1 := m, calls;
      var _ := RmdirCall(src);
      TopEmptied(env, t0, u0, t1, calls, m0, m1, src, dst);
      TopPasses(env, t0, calls, src, dst, Rmdir(src), t1);
      DirMoveProgress(env, t0, u0, t1, calls, m0, m1, m, src, dst);
      return 0;
    }

    /** The loop of the fallback, once the new directory is made; false if the old one could
        not be opened. */
    method MoveEntries(ghost m0: Fs, src: Path, dst: Path) returns (ok: bool)
      requires Begun(m0, src, dst) && WellFormed(m) && m == m0[dst := Dir]
      modifies this
      ensures WellFormed(m) && (CanRmdir(m, src) ==> WellFormed(m - {src}))
      ensures NothingLost(m0, m, src, dst)
      ensures CanRmdir(m, src) ==> NothingLost(m0, m - {src}, src, dst)
      ensures ok <==> !Refuses(Opendir(src), old(calls))
      ensures !ok ==> m == old(m) && refused > old(refused)
      ensures Get(m, src) == Some(Dir)
      ensures refused == old(refused) ==> m - {src} == Relocated(m0, src, dst)
      ensures ok ==> (refused > old(refused) <==> !Childless(m, src))
      ensures Rising(old(calls), old(refused), old(cuts)) && old(calls) < calls
      ensures ok ==> MoveProgressBelow(env, old(calls), calls, m0, m, src, dst)
      decreases Under(m0, src), 1
    {
      var names := OpendirCall(src);
      if names.None? {
        MoveEnded(m0, m, src, dst, {});
        return false;
      }
      assert forall n :: ChildIn(m0, src, n) ==> ChildIn(m, src, n);
      var i := 0;
      ghost var done: set<Name> := {};
      while i < |names.value|
        invariant 0 <= i <= |names.value| && done == LegalAmong(names.value[..i])
        invariant MovedSoFar(m0, m, src, dst, done, refused > old(refused))
        invariant MoveProgressIn(env, old(calls), calls, m0, m, src, dst, done)
        invariant Rising(old(calls), old(refused), old(cuts)) && old(calls) < calls
      {
        var n := names.value[i];
        NextName(names.value, i);
        if Legal(n) {
          MoveEntry(m0, src, dst, n, done, old(calls), old(refused));
          done := done + {n};
        }
        i := i + 1;
      }
      MoveEnded(m0, m, src, dst, done);
      assert Get(m, src) == Get(m0, src);
      ListingLegal(m0, m0[dst := Dir], src, names.value, done);
      MoveEntriesDone(env, old(calls), calls, m0, m, src, dst, done);
      if refused == old(refused) {
        FallbackIsRelocation(m0, m, src, dst, done);
      }
      return true;
    }

    /** One turn of that loop. */
    method MoveEntry(ghost m0: Fs, src: Path, dst: Path, n: Name, ghost done: set<Name>,
                     ghost t0: nat, ghost r0: nat)
      requires Begun(m0, src, dst) && Legal(n) && n !in done && ChildIn(m0[dst := Dir], src, n)
      requires t0 <= calls && r0 <= refused && MovedSoFar(m0, m, src, dst, done, refused > r0)
      requires MoveProgressIn(env, t0, calls, m0, m, src, dst, done)
      modifies this
      ensures MovedSoFar(m0, m, src, dst, done + {n}, refused > r0)
      ensures Rising(old(calls), old(refused), old(cuts))
      ensures MoveProgressIn(env, t0, calls, m0, m, src, dst, done + {n})
      decreases Under(m0, src), 0
    {
      ghost var mb, rb, tb := m, refused, calls;
      ChildReady(m0, m, src, dst, done, n);
      ChildAsBefore(m0, m, src, dst, done, n);
      var _ := MoveTree(src + [n], dst + [n]);
      MoveTurn(m0[dst := Dir], mb, m, src, dst, done, n, rb > r0, refused > r0);
      MoveProgressTurn(env, t0, tb, calls, m0, mb, m, src, dst, done, n);
    }

    method CopyTree(src: Path, dst: Path) returns (r: int)
      requires WellFormed(m) && LegalPath(dst)
      requires src <= dst ==> src == dst
      modifies this
      ensures WellFormed(m)
      ensures src != dst ==> CopyOnlyAdds(old(m), m, src, dst)
      ensures r == if CopyGetsGoing(old(m), src, dst, old(calls)) then 0 else -1
      ensures r == -1 ==>
                m == if !Refuses(Stat(src), old(calls)) && LeavesDir(old(m), src, dst, old(calls) + 1)
                     then old(m)[dst := Dir] else old(m)
      ensures src == dst ==> m == if r == 0 then old(m)[src := File([])] else old(m)
      ensures refused == old(refused) && src != dst && CanMove(old(m), src, dst) ==> r == 0
      ensures src != dst && CanMove(old(m), src, dst) ==>
                (m == Copied(old(m), src, dst) <==> cuts == old(cuts) || old(m) == Copied(old(m), src, dst))
      ensures src != dst && !CanMove(old(m), src, dst) ==> r == -1 && m == old(m)
      ensures Refuses(Stat(src), old(calls)) ==> m == old(m)
      ensures r == 0 ==> SkipsUnseen(old(m), m, src, dst)
      ensures Rising(old(calls), old(refused), old(cuts))
      ensures src != dst && CanMove(old(m), src, dst) ==>
                CopyProgress(env, old(calls), calls, old(m), m, src, dst)
      decreases Under(m, src), 3
    {
      ghost var m0, t0 := m, calls;
      var st := StatCall(src);
      if st.None? {
        if src in m0 {
          StoppedCopy(env, t0, calls, m0, m, src, dst, Stat(src), t0);
        }
        return -1;
      }
      ghost var u0 := calls;
      if st.value.Dir? {
        DestinationCopied(m0, src, dst);
        r := CopyDir(src, dst);
      } else {
        FileIsLeaf(m0, src);
        r := CopyLeaf(src, dst);
      }
      if src != dst && CanMove(m0, src, dst) {
        CopyProgressLater(env, t0, u0, calls, m0, m, src, dst);
      }
    }

    /** The file branch of the copy. */
    method CopyLeaf(src: Path, dst: Path) returns (r: int)
      requires WellFormed(m) && LegalPath(dst)
      requires src <= dst ==> src == dst
      requires src in m && m[src].File?
      modifies this
      ensures WellFormed(m)
      ensures src != dst ==> CopyOnlyAdds(old(m), m, src, dst)
      ensures r == if FileGetsGoing(old(m), src, dst, old(calls)) then 0 else -1
      ensures r == -1 ==> m == old(m)
      ensures src == dst && r == 0 ==> m == old(m)[src := File([])]
      ensures src != dst && r == 0 ==> m == Copied(old(m), src, dst)
      ensures CanMove(old(m), src, dst) ==> (r == -1 <==> refused > old(refused)) && (r == -1 <==> cuts > old(cuts))
      ensures Rising(old(calls), old(refused), old(cuts))
      ensures src != dst && CanMove(old(m), src, dst) ==>
                CopyProgress(env, old(calls), calls, old(m), m, src, dst)
    {
      ghost var m0, t0 := m, calls;
      r := CopyFile(src, dst);
      if src == dst {
        if r == 0 {
          FileReplaced(m0, dst, File([]));
        }
      } else if CanMove(m0, src, dst) {
        FileCanRename(m0, src, dst);
        FileReplaced(m0, dst, m0[src]);
        FileCopied(m0, src, dst);
        if r == -1 {
          OpensPass(t0, src, dst);
        }
        FileCopyProgress(env, t0, calls, m0, m, src, dst);
      }
    }

    method CopyDir(src: Path, dst: Path) returns (r: int)
      requires WellFormed(m) && LegalPath(dst)
      requires src <= dst ==> src == dst
      requires Get(m, src) == Some(Dir)
      modifies this
      ensures WellFormed(m)
      ensures CopyOnlyAdds(old(m), m, src, dst)
      ensures r == if DirGetsGoing(old(m), src, dst, old(calls)) then 0 else -1
      ensures r == -1 ==> m == if LeavesDir(old(m), src, dst, old(calls)) then old(m)[dst := Dir] else old(m)
      ensures refused == old(refused) && CanMkdir(old(m), dst) ==> r == 0
      ensures CanMkdir(old(m), dst) ==> (m == Copied(old(m), src, dst) <==> cuts == old(cuts))
      ensures r == 0 ==> SkipsUnseen(old(m), m, src, dst)
      ensures Rising(old(calls), old(refused), old(cuts))
      ensures CanMkdir(old(m), dst) ==> CopyProgress(env, old(calls), calls, old(m), m, src, dst)
      decreases Under(m, src), 2
    {
      ghost var m0, t0 := m, calls;
      DestinationCopied(m0, src, dst);
      var ok := MkdirCall(dst);
      if !ok {
        NothingAdded(m0, src, dst);
        if CanMkdir(m0, dst) {
          StoppedCopy(env, t0, calls, m0, m, src, dst, Mkdir(dst), t0);
        }
        return -1;
      }
      DirMade(m0, dst);
      CopyBegun(m0, src, dst);
      ghost var u0 := calls;
      ok := CopyEntries(m0, src, dst);
      CopyProgressLater(env, t0, u0, calls, m0, m, src, dst);
      return if ok then 0 else -1;
    }

    /** The loop of the copy branch, once the new directory is made; false if the old one could
        not be opened. */
    method CopyEntries(ghost m0: Fs, src: Path, dst: Path) returns (ok: bool)
      requires Begun(m0, src, dst) && WellFormed(m) && m == m0[dst := Dir]
      modifies this
      ensures WellFormed(m)
      ensures CopyOnlyAdds(m0, m, src, dst)
      ensures ok <==> !Refuses(Opendir(src), old(calls))
      ensures !ok ==> m == old(m) && refused > old(refused)
      ensures Get(m, dst) == Some(Dir)
      ensures m == Copied(m0, src, dst) <==> cuts == old(cuts)
      ensures ok ==> SkipsUnseen(m0, m, src, dst)
      ensures Rising(old(calls), old(refused), old(cuts)) && old(calls) < calls
      ensures CopyProgress(env, old(calls), calls, m0, m, src, dst)
      decreases Under(m0, src), 1
    {
      var names := OpendirCall(src);
      assert forall n :: ChildIn(m0, src, n) <==> ChildIn(m, src, n);
      if names.None? {
        OnlyTopCopied(m0, src, dst);
        StoppedCopy(env, old(calls), calls, m0, m, src, dst, Opendir(src), old(calls));
        CopyEnded(m0, m, src, dst, {});
        return false;
      }
      var i := 0;
      ghost var done: set<Name> := {};
      while i < |names.value|
        invariant 0 <= i <= |names.value| && done == LegalAmong(names.value[..i])
        invariant CopiedSoFar(m0, m, src, dst, done, cuts > old(cuts)) && UnseenSkipped(m, src, dst, done)
        invariant CopyProgressIn(env, old(calls), calls, m0, m, src, dst, done)
        invariant Rising(old(calls), old(refused), old(cuts)) && old(calls) < calls
      {
        var n := names.value[i];
        NextName(names.value, i);
        if Legal(n) {
          CopyEntry(m0, src, dst, n, done, old(calls), old(cuts));
          done := done + {n};
        }
        i := i + 1;
      }
      CopyEnded(m0, m, src, dst, done);
      assert Get(m, dst) == Get(m0[dst := Dir], dst);
      ListingLegal(m0, m0[dst := Dir], src, names.value, done);
      CopyEntriesDone(env, old(calls), calls, m0, m, src, dst, done);
      DirCopyProgress(env, old(calls), old(calls), calls, m0, m, src, dst);
      if cuts == old(cuts) {
        AllCopied(m0, m, src, dst, done);
      } else {
        UnlikeIsIncomplete(m0, m, src, dst, done);
      }
      return true;
    }

    /** One turn of that loop. */
    method CopyEntry(ghost m0: Fs, src: Path, dst: Path, n: Name, ghost done: set<Name>,
                     ghost t0: nat, ghost c0: nat)
      requires Begun(m0, src, dst) && Legal(n) && n !in done && ChildIn(m0[dst := Dir], src, n)
      requires c0 <= cuts && CopiedSoFar(m0, m, src, dst, done, cuts > c0) && UnseenSkipped(m, src, dst, done)
      requires t0 <= calls && CopyProgressIn(env, t0, calls, m0, m, src, dst, done)
      modifies this
      ensures CopiedSoFar(m0, m, src, dst, done + {n}, cuts > c0) && UnseenSkipped(m, src, dst, done + {n})
      ensures Rising(old(calls), old(refused), old(cuts))
      ensures CopyProgressIn(env, t0, calls, m0, m, src, dst, done + {n})
      decreases Under(m0, src), 0
    {
      ghost var mb, cb, tb := m, cuts, calls;
      ChildReady(m0, m, src, dst, done, n);
      ChildAsBefore(m0, m, src, dst, done, n);
      DestinationCopied(mb, src + [n], dst + [n]);
      var _ := CopyTree(src + [n], dst + [n]);
      CopyTurn(m0[dst := Dir], mb, m, src, dst, done, n, cb > c0, cuts > c0);
      UnseenTurn(mb, m, src, dst, done, n);
      CopyProgressTurn(env, t0, tb, calls, m0, mb, m, src, dst, done, n);
    }

    method DeleteTree(d: Path) returns (r: int)
      requires WellFormed(m)
      modifies this
      ensures WellFormed(m)
      ensures DeleteOnlyRemoves(old(m), m, d)
      ensures r == if DeleteGetsGoing(old(m), d, old(calls)) then 0 else -1
      ensures r == -1 ==> m == old(m)
      ensures refused == old(refused) ==> r == if d in old(m) then 0 else -1
      ensures refused == old(refused) ==> m == if d == [] then map[[] := Dir] else Deleted(old(m), d)
      ensures d in old(m) && old(m)[d].File? && r == 0 ==>
                m == if Refuses(Unlink(d), old(calls) + 1) then old(m) else old(m) - {d}
      ensures d != [] && d in old(m) ==> (refused > old(refused) <==> d in m)
      ensures Rising(old(calls), old(refused), old(cuts))
      ensures DeleteProgress(env, old(calls), calls, old(m), m, d)
      decreases Under(m, d), 2
    {
      ghost var m0, t0 := m, calls;
      var st := StatCall(d);
      if st.None? {
        if d !in m0 {
          AbsentDeleted(m0, d);
          AbsentProgress(t0, m0, m, d);
        } else {
          StoppedDelete(env, t0, calls, m0, m, d, Stat(d), t0);
        }
        return -1;
      }
      if st.value.Dir? {
        ghost var u0 := calls;
        var ok := DeleteEntries(d);
        if !ok {
          StoppedDelete(env, t0, calls, m0, m, d, Opendir(d), t0 + 1);
          return -1;
        }
        if CanRmdir(m, d) {
          ChildlessIsAlone(m, d);
          LeafRemoved(m, d);
        }
        ghost var m1, t1 := m, calls;
        var _ := RmdirCall(d);
        TopCleared(env, t0, u0, t1, calls, m0, m1, d);
        TopClear(env, t0, calls, d, Rmdir(d), t1);
        DeleteProgressEnds(env, t0, u0, t1, calls, m0, m1, m, d);
      } else {
        FileIsLeaf(m0, d);
        LeafRemoved(m0, d);
        var _ := UnlinkCall(d);
        TopClear(env, t0, calls, d, Unlink(d), t0 + 1);
        FileDeleteProgress(env, t0, calls, m0, m, d);
      }
      return 0;
    }

    lemma AbsentProgress(t0: nat, m0: Fs, m: Fs, d: Path)
      requires WellFormed(m0) && d !in m0
      ensures DeleteProgress(env, t0, calls, m0, m, d)
    {
      forall p ensures DeleteProgressAt(env, t0, calls, m0, m, d, p) {
        if d <= p {
          AbsentAbove(m0, d, p);
        }
      }
    }

    /** The loop of the delete branch; false if the directory could not be opened. */
    method DeleteEntries(d: Path) returns (ok: bool)
      requires WellFormed(m) && Get(m, d) == Some(Dir)
      modifies this
      ensures WellFormed(m)
      ensures DeleteOnlyRemoves(old(m), m, d)
      ensures ok <==> !Refuses(Opendir(d), old(calls))
      ensures !ok ==> m == old(m) && refused > old(refused)
      ensures Get(m, d) == Some(Dir)
      ensures refused == old(refused) ==> Childless(m, d) && m - {d} == Deleted(old(m), d)
      ensures ok ==> (refused > old(refused) <==> !Childless(m, d))
      ensures Rising(old(calls), old(refused), old(cuts)) && old(calls) < calls
      ensures ok ==> DeleteProgressBelow(env, old(calls), calls, old(m), m, d)
      decreases Under(m, d), 1
    {
      ghost var m0 := m;
      var names := OpendirCall(d);
      if names.None? { return false; }
      var i := 0;
      ghost var done: set<Name> := {};
      while i < |names.value|
        invariant 0 <= i <= |names.value| && done == LegalAmong(names.value[..i])
        invariant DeletedSoFar(m0, m, d, done, refused > old(refused))
        invariant DeleteProgressIn(env, old(calls), calls, m0, m, d, done)
        invariant Rising(old(calls), old(refused), old(cuts)) && old(calls) < calls
      {
        var n := names.value[i];
        NextName(names.value, i);
        if Legal(n) {
          DeleteEntry(m0, d, n, done, old(calls), old(refused));
          done := done + {n};
        }
        i := i + 1;
      }
      assert Get(m, d) == Get(m0, d);
      ListingLegal(m0, m0, d, names.value, done);
      DeleteEntriesDone(env, old(calls), calls, m0, m, d, done);
      if refused == old(refused) {
        AllDeleted(m0, m, d, done);
      }
      return true;
    }

    /** One turn of that loop. */
    method DeleteEntry(ghost m0: Fs, d: Path, n: Name, ghost done: set<Name>, ghost t0: nat, ghost r0: nat)
      requires d in m0 && n !in done && ChildIn(m0, d, n)
      requires r0 <= refused && DeletedSoFar(m0, m, d, done, refused > r0)
      requires t0 <= calls && DeleteProgressIn(env, t0, calls, m0, m, d, done)
      modifies this
      ensures DeletedSoFar(m0, m, d, done + {n}, refused > r0)
      ensures Rising(old(calls), old(refused), old(cuts))
      ensures DeleteProgressIn(env, t0, calls, m0, m, d, done + {n})
      decreases Under(m0, d), 0
    {
      ghost var mb, rb, tb := m, refused, calls;
      ChildShrinks(m0, m, d, n);
      NotYetDeleted(m0, m, d, done, n);
      var _ := DeleteTree(d + [n]);
      DeleteTurn(m0, mb, m, d, done, n, rb > r0, refused > r0);
      DeleteProgressTurn(env, t0, tb, calls, m0, mb, m, d, done, n);
    }

    /** The entry point: one recursive engine for the three operations.  A missing
        destination makes copy and move fail at once. */
    method ProcessTree(src: Path, dst: Option<Path>, op: Operation) returns (r: int)
      requires WellFormed(m)
      requires op != OpDelete && dst.Some? ==> LegalPath(dst.value) && (src <= dst.value ==> src == dst.value)
      modifies this
      ensures WellFormed(m)
      ensures r == if match op
                      case OpDelete => DeleteGetsGoing(old(m), src, old(calls))
                      case OpMove => dst.Some? && MoveGetsGoing(old(m), src, dst.value, old(calls))
                      case OpCopy => dst.Some? && CopyGetsGoing(old(m), src, dst.value, old(calls))
                   then 0 else -1
      // Whatever fails:
      ensures op == OpDelete ==> DeleteOnlyRemoves(old(m), m, src)
      ensures op == OpMove && dst.Some? ==> NothingLost(old(m), m, src, dst.value)
      ensures op == OpCopy && dst.Some? && src != dst.value ==> CopyOnlyAdds(old(m), m, src, dst.value)
      ensures op != OpDelete && dst.None? ==> m == old(m)
      // The work is done exactly when nothing that matters was refused:
      ensures op == OpDelete && src != [] && src in old(m) ==>
                (m == Deleted(old(m), src) <==> refused == old(refused))
      ensures op == OpMove && dst.Some? && src != dst.value && CanMove(old(m), src, dst.value) ==>
                (m == Relocated(old(m), src, dst.value) <==> refused == old(refused))
      ensures op == OpCopy && dst.Some? && src != dst.value && CanMove(old(m), src, dst.value) ==>
                (m == Copied(old(m), src, dst.value) <==>
                 cuts == old(cuts) || old(m) == Copied(old(m), src, dst.value))
      // And whatever was refused, everything else is dealt with:
      ensures op == OpDelete ==> DeleteProgress(env, old(calls), calls, old(m), m, src)
      ensures op == OpMove && dst.Some? && src != dst.value && CanMove(old(m), src, dst.value) ==>
                MoveProgress(env, old(calls), calls, old(m), m, src, dst.value)
      ensures op == OpCopy && dst.Some? && src != dst.value && CanMove(old(m), src, dst.value) ==>
                CopyProgress(env, old(calls), calls, old(m), m, src, dst.value)
      // Onto itself:
      ensures op == OpMove && dst == Some(src) ==> m == old(m)
      ensures op == OpCopy && dst == Some(src) ==> m == if r == 0 then old(m)[src := File([])] else old(m)
      ensures Rising(old(calls), old(refused), old(cuts))
    {
      ghost var m0 := m;
      if op == OpDelete {
        r := DeleteTree(src);
      } else if dst.None? {
        Count(Stat(src));
        r := -1;
      } else if op == OpMove {
        if src != dst.value && CanMove(m0, src, dst.value) {
          MovableApart(m0, src, dst.value);
        }
        r := MoveTree(src, dst.value);
      } else {
        r := CopyTree(src, dst.value);
      }
    }
  }

  // ---------- 0 does not mean done, and -1 does not mean undone ----------

  /** Deleting a file when unlink is refused: nothing happens, 0 is returned. */
  method DeleteNothing(m0: Fs, d: Path) returns (r: int, m: Fs)
    requires WellFormed(m0) && d in m0 && m0[d].File?
    ensures r == 0 && m == m0
  {
    var fs := new FileSystem(m0, Environment((c: Call, t: nat) => c.Unlink?));
    r := fs.DeleteTree(d);
    m := fs.m;
  }

  /** Moving a file when rename and unlink are refused: the original stays, 0 is returned. */
  method MoveNothingAway(m0: Fs, src: Path, dst: Path) returns (r: int, m: Fs)
    requires WellFormed(m0) && LegalPath(dst) && CanMove(m0, src, dst) && m0[src].File? && src != dst
    ensures r == 0 && Get(m, src) == Get(m0, src)
  {
    FileCanRename(m0, src, dst);
    var fs := new FileSystem(m0, Environment((c: Call, t: nat) => c.Rename? || c.Unlink?));
    r := fs.MoveTree(src, dst);
    m := fs.m;
    assert SafeAt(m0, m, src, dst, src);
  }

  /** Copying a directory one entry of which cannot be examined: the entry is missing in the
      copy, 0 is returned. */
  method CopyWithoutEntry(m0: Fs, src: Path, dst: Path, n: Name) returns (r: int, m: Fs)
    requires WellFormed(m0) && LegalPath(dst) && CanMkdir(m0, dst) && !(src <= dst)
    requires Get(m0, src) == Some(Dir) && ChildIn(m0, src, n)
    ensures r == 0 && !ChildIn(m, dst, n)
  {
    var fs := new FileSystem(m0, Environment((c: Call, t: nat) => c == Stat(src + [n])));
    assert src != src + [n];
    r := fs.CopyTree(src, dst);
    assert fs.Unseen(src + [n]) && fs.SkippedAt(fs.m, src, dst, n);
    m := fs.m;
  }

  /** Copying an empty directory that cannot be opened: the copy is complete, -1 is returned. */
  method CopyInSpite(m0: Fs, src: Path, dst: Path) returns (r: int, m: Fs)
    requires WellFormed(m0) && LegalPath(dst) && CanMkdir(m0, dst) && !(src <= dst)
    requires Get(m0, src) == Some(Dir) && Childless(m0, src)
    ensures r == -1 && m == Copied(m0, src, dst)
  {
    CopyBegun(m0, src, dst);
    OnlyTopCopied(m0, src, dst);
    var fs := new FileSystem(m0, Environment((c: Call, t: nat) => c.Opendir?));
    r := fs.CopyTree(src, dst);
    m := fs.m;
  }

  // ---------- what the loops need ----------

  lemma ListingLegal(m0: Fs, m: Fs, d: Path, names: seq<Name>, done: set<Name>)
    requires WellFormed(m0) && Listing(m, d, names)
    requires forall n :: ChildIn(m0, d, n) ==> ChildIn(m, d, n)
    requires done == LegalAmong(names)
    ensures forall n :: ChildIn(m0, d, n) ==> n in done
  {
    forall n | ChildIn(m0, d, n) ensures n in done {
      assert ChildIn(m, d, n);
      assert LegalPath(d + [n]) && (d + [n])[|d|] == n;
    }
  }

  lemma DirMade(m: Fs, p: Path)
    requires WellFormed(m) && LegalPath(p) && CanMkdir(m, p)
    ensures WellFormed(m[p := Dir])
  {
    var m' := m[p := Dir];
    forall q | q in m' && q != [] ensures HasParentDir(m', q) {
      assert q == p || HasParentDir(m, q);
    }
  }

  lemma MoveBegun(m: Fs, src: Path, dst: Path)
    requires WellFormed(m) && CanMkdir(m, dst) && Get(m, src) == Some(Dir) && !(src <= dst)
    ensures Apart(src, dst)
    ensures NothingLost(m, m[dst := Dir], src, dst)
  {
    if dst <= src {
      AbsentAbove(m, dst, src);
    }
    assert Rebase(dst, dst, src) == src;
    var m' := m[dst := Dir];
    forall p ensures SafeAt(m, m', src, dst, p) {
      ApartBelow(src, dst, p);
      if dst <= p {
        AbsentAbove(m, dst, p);
      }
    }
  }

  /** A child not yet reached is as it was, and its new place is free. */
  lemma ChildReady(m0: Fs, m: Fs, src: Path, dst: Path, done: set<Name>, n: Name)
    requires WellFormed(m0) && CanMkdir(m0, dst) && Get(m0, src) == Some(Dir) && Apart(src, dst)
    requires Elsewhere(m0[dst := Dir], m, src, dst, done)
    requires n !in done && Legal(n) && LegalPath(dst) && ChildIn(m0[dst := Dir], src, n)
    ensures LegalPath(dst + [n]) && !(src + [n] <= dst + [n])
    ensures forall p :: dst + [n] <= p ==> p !in m
    ensures CanMove(m, src + [n], dst + [n])
    ensures Under(m, src + [n]) < Under(m0, src)
  {
    var m1 := m0[dst := Dir];
    forall p
      ensures src + [n] <= p ==> src <= p && Get(m, p) == Get(m0, p)
      ensures dst + [n] <= p ==> p !in m
    {
      ApartBelow(src, dst, p);
      BeneathOne(src, n, p);
      BeneathOne(dst, n, p);
      if dst + [n] <= p {
        AbsentAbove(m0, dst, p);
        assert Get(m, p) == Get(m1, p);
      }
    }
    assert Get(m, src + [n]) == Get(m0, src + [n]);
    assert !Beneath(src, done, dst) && !Beneath(dst, done, dst);
    assert Get(m, dst) == Get(m1, dst);
    assert Parent(dst + [n]) == dst;
    if src + [n] <= dst + [n] {
      ApartBelow(src, dst, dst + [n]);
    }
    assert src in Under(m0, src) && src !in Under(m, src + [n]);
    assert forall p :: p in Under(m, src + [n]) ==> Get(m, p) == Get(m0, p);
  }

  /** The subtree of an entry not yet reached is as it was. */
  lemma ChildAsBefore(m0: Fs, m: Fs, src: Path, dst: Path, done: set<Name>, n: Name)
    requires Apart(src, dst) && n !in done && Elsewhere(m0[dst := Dir], m, src, dst, done)
    ensures forall q :: src + [n] <= q ==> Get(m, q) == Get(m0, q)
  {
    forall q | src + [n] <= q ensures Get(m, q) == Get(m0, q) {
      BeneathOne(src, n, q);
      ApartBelow(src, dst, q);
      assert Get(m, q) == Get(m0[dst := Dir], q);
    }
  }

  /** Removing the emptied source directory completes a move that has lost nothing. */
  lemma MoveEnded(m0: Fs, m: Fs, src: Path, dst: Path, done: set<Name>)
    requires WellFormed(m0) && WellFormed(m) && Apart(src, dst)
    requires Get(m0, src) == Some(Dir) && dst !in m0
    requires NothingLost(m0[dst := Dir], m, src, dst) && Elsewhere(m0[dst := Dir], m, src, dst, done)
    ensures NothingLost(m0, m, src, dst)
    ensures CanRmdir(m, src) ==> WellFormed(m - {src}) && NothingLost(m0, m - {src}, src, dst)
  {
    var m1 := m0[dst := Dir];
    assert Rebase(dst, dst, src) == src && Rebase(src, src, dst) == dst;
    assert !Beneath(src, done, dst) && !Beneath(dst, done, dst);
    assert Get(m, dst) == Get(m1, dst) == Some(Dir) == Get(m0, src);
    if CanRmdir(m, src) {
      ChildlessIsAlone(m, src);
      LeafRemoved(m, src);
    }
    forall p
      ensures SafeAt(m0, m, src, dst, p)
      ensures CanRmdir(m, src) ==> SafeAt(m0, m - {src}, src, dst, p)
    {
      assert SafeAt(m1, m, src, dst, p);
      ApartBelow(src, dst, p);
      if src <= p {
        RebaseBack(p, src, dst);
        ApartBelow(src, dst, Rebase(p, src, dst));
      }
      if dst <= p {
        RebaseBack(p, dst, src);
        ApartBelow(src, dst, Rebase(p, dst, src));
      }
    }
  }

  /** When rename can do it, the move succeeds if rename does; when only the fallback can,
      rename plays no part. */
  lemma RenameDecides(m: Fs, src: Path, dst: Path)
    requires WellFormed(m) && src != dst && (src <= dst ==> src == dst)
    ensures CanRename(m, src, dst) <==> MoveSucceeds(m, src, dst, false)
    ensures src in m ==>
              (MoveSucceeds(m, src, dst, true) <==> if m[src].Dir? then CanMkdir(m, dst) else CanMove(m, src, dst))
  {
    if OntoEmptyDir(m, src, dst) {
      assert src != [];
      ChildlessIsAlone(m, dst);
      assert HasParentDir(m, dst);
    }
  }

  lemma NothingAdded(m: Fs, src: Path, dst: Path)
    ensures CopyOnlyAdds(m, m, src, dst)
  {
  }

  lemma CopyBegun(m: Fs, src: Path, dst: Path)
    requires WellFormed(m) && CanMkdir(m, dst) && Get(m, src) == Some(Dir) && (src <= dst ==> src == dst)
    ensures Apart(src, dst)
    ensures CopyOnlyAdds(m, m[dst := Dir], src, dst)
  {
    if dst <= src {
      AbsentAbove(m, dst, src);
    }
    assert Rebase(dst, dst, src) == src;
    var m' := m[dst := Dir];
    forall p ensures AddedAt(m, m', src, dst, p) {
      if dst <= p {
        AbsentAbove(m, dst, p);
      }
    }
  }

  lemma CopyEnded(m0: Fs, m: Fs, src: Path, dst: Path, done: set<Name>)
    requires WellFormed(m0) && Apart(src, dst) && Get(m0, src) == Some(Dir) && dst !in m0
    requires CopyOnlyAdds(m0[dst := Dir], m, src, dst) && ElsewhereOne(m0[dst := Dir], m, dst, done)
    ensures CopyOnlyAdds(m0, m, src, dst)
  {
    var m1 := m0[dst := Dir];
    assert Rebase(dst, dst, src) == src;
    assert Get(m, dst) == Get(m1, dst);
    forall p ensures AddedAt(m0, m, src, dst, p) {
      assert AddedAt(m1, m, src, dst, p);
      if dst <= p {
        RebaseBack(p, dst, src);
        ApartBelow(src, dst, Rebase(p, dst, src));
      }
    }
  }

  /** Some entry handled so far is still in `d`. */
  ghost predicate SomeLeft(m: Fs, d: Path, done: set<Name>) {
    exists n :: n in done && ChildIn(m, d, n)
  }

  ghost predicate NoneLeft(m: Fs, d: Path, done: set<Name>) {
    forall p :: Beneath(d, done, p) ==> p !in m
  }

  /** Some entry handled so far differs from its original. */
  ghost predicate SomeUnlike(m: Fs, src: Path, dst: Path, done: set<Name>) {
    exists n :: n in done && !SameTree(m, src + [n], dst + [n])
  }

  /** The new directory can be made and then be filled from the old one. */
  ghost predicate Begun(m0: Fs, src: Path, dst: Path) {
    WellFormed(m0) && LegalPath(dst) && Apart(src, dst) && CanMkdir(m0, dst) && Get(m0, src) == Some(Dir)
  }

  /** What the loop of the move has reached; `spoilt` if a call was refused in it. */
  ghost predicate MovedSoFar(m0: Fs, m: Fs, src: Path, dst: Path, done: set<Name>, spoilt: bool) {
    var m1 := m0[dst := Dir];
    && WellFormed(m) && NothingLost(m1, m, src, dst) && Elsewhere(m1, m, src, dst, done)
    && (if spoilt then SomeLeft(m, src, done) else Moved(m1, m, src, dst, done))
  }

  ghost predicate CopiedSoFar(m0: Fs, m: Fs, src: Path, dst: Path, done: set<Name>, spoilt: bool) {
    var m1 := m0[dst := Dir];
    && WellFormed(m) && CopyOnlyAdds(m1, m, src, dst) && ElsewhereOne(m1, m, dst, done)
    && (if spoilt then SomeUnlike(m, src, dst, done) else Duplicated(m1, m, src, dst, done))
  }

  ghost predicate DeletedSoFar(m0: Fs, m: Fs, d: Path, done: set<Name>, spoilt: bool) {
    && WellFormed(m) && DeleteOnlyRemoves(m0, m, d) && ElsewhereOne(m0, m, d, done)
    && (if spoilt then SomeLeft(m, d, done) else NoneLeft(m, d, done))
  }

  /** One turn of the loop of the move: `before` and `now` say whether a call had been refused
      before it and has been after it. */
  lemma MoveTurn(m1: Fs, mb: Fs, m: Fs, src: Path, dst: Path, done: set<Name>, n: Name, before: bool, now: bool)
    requires Apart(src, dst) && n !in done && (before ==> now)
    requires NothingLost(m1, mb, src, dst) && Elsewhere(m1, mb, src, dst, done)
    requires NothingLost(mb, m, src + [n], dst + [n])
    requires forall p :: dst + [n] <= p ==> p !in mb
    requires if before then SomeLeft(mb, src, done) else Moved(m1, mb, src, dst, done)
    requires !before ==> if now then src + [n] in m else m == Relocated(mb, src + [n], dst + [n])
    ensures NothingLost(m1, m, src, dst) && Elsewhere(m1, m, src, dst, done + {n})
    ensures if now then SomeLeft(m, src, done + {n}) else Moved(m1, m, src, dst, done + {n})
  {
    ChildMoved(m1, mb, m, src, dst, done, n);
    if !now {
      ChildMovedExactly(m1, mb, src, dst, done, n);
    } else if before {
      var k :| k in done && ChildIn(mb, src, k);
      OthersStay(mb, m, src, dst, n, k);
      assert k in done + {n};
    } else {
      assert n in done + {n} && ChildIn(m, src, n);
    }
  }

  lemma CopyTurn(m1: Fs, mb: Fs, m: Fs, src: Path, dst: Path, done: set<Name>, n: Name, before: bool, now: bool)
    requires WellFormed(mb) && Apart(src, dst) && n !in done && (before ==> now)
    requires CopyOnlyAdds(m1, mb, src, dst) && ElsewhereOne(m1, mb, dst, done)
    requires CopyOnlyAdds(mb, m, src + [n], dst + [n])
    requires forall p :: dst + [n] <= p ==> p !in mb
    requires if before then SomeUnlike(mb, src, dst, done) else Duplicated(m1, mb, src, dst, done)
    requires !before ==> (now <==> m != Copied(mb, src + [n], dst + [n]))
    ensures CopyOnlyAdds(m1, m, src, dst) && ElsewhereOne(m1, m, dst, done + {n})
    ensures if now then SomeUnlike(m, src, dst, done + {n}) else Duplicated(m1, m, src, dst, done + {n})
  {
    ChildCopied(m1, mb, m, src, dst, done, n);
    if !now {
      ChildCopiedExactly(m1, mb, src, dst, done, n);
    } else if before {
      var k :| k in done && !SameTree(mb, src + [k], dst + [k]);
      if SameTree(m, src + [k], dst + [k]) {
        OtherEntry(mb, m, src, dst, n, k);
      }
      assert k in done + {n};
    } else {
      ChildrenApart(src, dst, n);
      CompleteIsSameTree(mb, m, src + [n], dst + [n]);
      assert n in done + {n};
    }
  }

  lemma ChildrenApart(src: Path, dst: Path, n: Name)
    requires Apart(src, dst)
    ensures Apart(src + [n], dst + [n])
  {
    ApartBelow(src, dst, src + [n]);
    ApartBelow(src, dst, dst + [n]);
  }

  lemma UnlikeIsIncomplete(m0: Fs, m: Fs, src: Path, dst: Path, done: set<Name>)
    requires WellFormed(m0) && Apart(src, dst) && dst !in m0
    requires CopyOnlyAdds(m0, m, src, dst) && SomeUnlike(m, src, dst, done)
    ensures m != Copied(m0, src, dst)
  {
    var n :| n in done && !SameTree(m, src + [n], dst + [n]);
    CompleteIsSameTree(m0, m, src, dst);
    if SameTree(m, src, dst) {
      SameEntry(m, src, dst, n);
    }
  }

  lemma NotYetDeleted(m0: Fs, m: Fs, d: Path, done: set<Name>, n: Name)
    requires ElsewhereOne(m0, m, d, done) && n !in done && ChildIn(m0, d, n)
    ensures ChildIn(m, d, n)
    ensures forall q :: d + [n] <= q ==> Get(m, q) == Get(m0, q)
  {
    forall q | d + [n] <= q ensures Get(m, q) == Get(m0, q) {
      BeneathOne(d, n, q);
    }
    assert Get(m, d + [n]) == Get(m0, d + [n]);
  }

  lemma DeleteTurn(m0: Fs, mb: Fs, m: Fs, d: Path, done: set<Name>, n: Name, before: bool, now: bool)
    requires n !in done && (before ==> now)
    requires DeleteOnlyRemoves(m0, mb, d) && ElsewhereOne(m0, mb, d, done)
    requires DeleteOnlyRemoves(mb, m, d + [n])
    requires if before then SomeLeft(mb, d, done) else NoneLeft(mb, d, done)
    requires !before ==> if now then d + [n] in m else m == Deleted(mb, d + [n])
    ensures DeleteOnlyRemoves(m0, m, d) && ElsewhereOne(m0, m, d, done + {n})
    ensures if now then SomeLeft(m, d, done + {n}) else NoneLeft(m, d, done + {n})
  {
    ChildDeleted(m0, mb, m, d, done, n);
    if !now {
      forall p | Beneath(d, done + {n}, p) ensures p !in m {
        BeneathOne(d, n, p);
        assert Beneath(d, done, p) || d + [n] <= p;
      }
    } else if before {
      var k :| k in done && ChildIn(mb, d, k);
      BeneathOne(d, n, d + [k]);
      assert Get(m, d + [k]) == Get(mb, d + [k]);
      assert k in done + {n} && ChildIn(m, d, k);
    } else {
      assert n in done + {n} && ChildIn(m, d, n);
    }
  }

  lemma DestinationCopied(m: Fs, src: Path, dst: Path)
    requires src in m
    ensures dst in Copied(m, src, dst)
  {
    CopiedAt(m, src, dst, dst);
    assert Rebase(dst, dst, src) == src;
  }

  /** Copying entry `n` puts nothing in the place of another entry. */
  lemma OthersUncopied(m: Fs, m': Fs, src: Path, dst: Path, n: Name)
    requires CopyOnlyAdds(m, m', src + [n], dst + [n])
    ensures forall k :: k != n ==> (ChildIn(m', dst, k) <==> ChildIn(m, dst, k))
  {
    forall k | k != n ensures ChildIn(m', dst, k) <==> ChildIn(m, dst, k) {
      assert AddedAt(m, m', src + [n], dst + [n], dst + [k]);
      BeneathOne(dst, n, dst + [k]);
    }
  }

  /** A directory without its entries is a complete copy exactly of an empty directory. */
  lemma OnlyTopCopied(m: Fs, src: Path, dst: Path)
    requires WellFormed(m) && Get(m, src) == Some(Dir) && dst !in m && Apart(src, dst)
    ensures m[dst := Dir] == Copied(m, src, dst) <==> Childless(m, src)
  {
    var m1 := m[dst := Dir];
    if Childless(m, src) {
      AllCopied(m, m1, src, dst, {});
    } else {
      var n :| ChildIn(m, src, n);
      AbsentAbove(m, dst, dst + [n]);
      CopiedAt(m, src, dst, dst + [n]);
      assert Rebase(dst + [n], dst, src) == src + [n];
      assert Get(m1, dst + [n]) != Get(Copied(m, src, dst), dst + [n]);
    }
  }

  /** Moving entry `n` leaves entry `k` where it is. */
  lemma OthersStay(m: Fs, m': Fs, src: Path, dst: Path, n: Name, k: Name)
    requires Apart(src, dst) && n != k && ChildIn(m, src, k)
    requires NothingLost(m, m', src + [n], dst + [n])
    ensures ChildIn(m', src, k)
  {
    var p := src + [k];
    assert SafeAt(m, m', src + [n], dst + [n], p);
    BeneathOne(src, n, p);
    BeneathOne(dst, n, p);
    ApartBelow(src, dst, p);
  }

  lemma FileIsLeaf(m: Fs, d: Path)
    requires WellFormed(m) && d in m && m[d].File?
    ensures d != [] && forall p :: p in m && d <= p ==> p == d
  {
    forall p | p in m && d <= p && p != d ensures false {
      AncestorIsDir(m, d, p);
    }
  }

  lemma AbsentDeleted(m: Fs, d: Path)
    requires WellFormed(m) && d !in m
    ensures Deleted(m, d) == m
  {
    forall p | p in m ensures !(d <= p) {
      if d <= p {
        AbsentAbove(m, d, p);
      }
    }
  }

  lemma ChildShrinks(m0: Fs, m: Fs, d: Path, n: Name)
    requires d in m0 && DeleteOnlyRemoves(m0, m, d)
    ensures Under(m, d + [n]) < Under(m0, d)
  {
    assert d in Under(m0, d) && d !in Under(m, d + [n]);
    forall p | p in Under(m, d + [n]) ensures p in Under(m0, d) {
      assert Get(m, p) == Get(m0, p);
      BeneathOne(d, n, p);
    }
  }
}
