/** What the recursive copy, delete and move of the file manager may and may not do to a file
    system, entry by entry.  Everything here is about values; FileEngine.dfy has the operations
    that change a file system in place. */
module FileTree {
  import opened Basics
  import opened Paths

  const BLOCK := 8192

  /** The calls that the engine issues and that may fail. */
  datatype Call =
    | Stat(p: Path)
    | Rename(src: Path, dst: Path)
    | Mkdir(p: Path)
    | Opendir(p: Path)
    | OpenRead(p: Path)
    | OpenWrite(p: Path)
    | Unlink(p: Path)
    | Rmdir(p: Path)

  datatype Operation = OpCopy | OpDelete | OpMove

  // ---------- when the kernel can serve a call at all ----------

  ghost predicate CanRename(m: Fs, src: Path, dst: Path) {
    && src in m && src != []
    && HasParentDir(m, dst)
    && (src <= dst ==> src == dst)
    && (dst in m ==> m[src].File? == m[dst].File? && (m[dst].Dir? && src != dst ==> Childless(m, dst)))
  }

  predicate CanMkdir(m: Fs, p: Path) {
    p !in m && HasParentDir(m, p)
  }

  predicate CanOpenWrite(m: Fs, p: Path) {
    HasParentDir(m, p) && (p in m ==> m[p].File?)
  }

  ghost predicate CanRmdir(m: Fs, p: Path) {
    p != [] && Get(m, p) == Some(Dir) && Childless(m, p)
  }

  // ---------- what a move may and may not do, whatever fails ----------

  /** What a move guarantees about one path `p`, whatever fails: a node of the tree at `src`
      is still in its old place or already in its new one; nothing is invented in either
      place; what was at the destination is there still, or replaced; a path in neither place
      is untouched. */
  ghost predicate SafeAt(before: Fs, after: Fs, src: Path, dst: Path, p: Path) {
    && (!(src <= p) && !(dst <= p) ==> Get(after, p) == Get(before, p))
    && (p in before && src <= p ==>
          Get(after, p) == Get(before, p) || Get(after, Rebase(p, src, dst)) == Get(before, p))
    && (p in after && src <= p ==> Get(after, p) == Get(before, p))
    && (p in after && dst <= p ==>
          Get(after, p) == Get(before, p) || Get(after, p) == Get(before, Rebase(p, dst, src)))
    && (p in before && dst <= p ==> p in after)
  }

  ghost predicate NothingLost(before: Fs, after: Fs, src: Path, dst: Path) {
    forall p :: SafeAt(before, after, src, dst, p)
  }

  /** Outside the children `done` of `src` and `dst` nothing differs. */
  ghost predicate Elsewhere(before: Fs, after: Fs, src: Path, dst: Path, done: set<Name>) {
    forall p {:trigger Get(after, p)} ::
      !Beneath(src, done, p) && !Beneath(dst, done, p) ==> Get(after, p) == Get(before, p)
  }

  ghost predicate MovedAt(before: Fs, after: Fs, src: Path, dst: Path, done: set<Name>, p: Path) {
    && (Beneath(src, done, p) ==> p !in after)
    && (Beneath(dst, done, p) ==> Get(after, p) == Get(before, Rebase(p, dst, src)))
  }

  /** The children `done` have all gone from `src` to `dst`. */
  ghost predicate Moved(before: Fs, after: Fs, src: Path, dst: Path, done: set<Name>) {
    forall p :: MovedAt(before, after, src, dst, done, p)
  }

  ghost predicate Apart(src: Path, dst: Path) {
    !(src <= dst) && !(dst <= src)
  }

  lemma ApartBelow(src: Path, dst: Path, p: Path)
    requires Apart(src, dst)
    ensures !(src <= p && dst <= p)
  {
    if src <= p && dst <= p {
      PrefixTrichotomy(src, dst, p);
    }
  }

  /** One more child handled: the facts about the children done so far grow by it. */
  lemma ChildMoved(m1: Fs, m: Fs, m': Fs, src: Path, dst: Path, done: set<Name>, n: Name)
    requires Apart(src, dst) && n !in done
    requires NothingLost(m1, m, src, dst) && Elsewhere(m1, m, src, dst, done)
    requires NothingLost(m, m', src + [n], dst + [n])
    requires forall p :: dst + [n] <= p ==> p !in m
    ensures NothingLost(m1, m', src, dst)
    ensures Elsewhere(m1, m', src, dst, done + {n})
  {
    forall p
      ensures SafeAt(m1, m', src, dst, p)
      ensures !Beneath(src, done + {n}, p) && !Beneath(dst, done + {n}, p) ==> Get(m', p) == Get(m1, p)
    {
      ChildMovedAt(m1, m, m', src, dst, done, n, p);
    }
  }

  lemma ChildMovedAt(m1: Fs, m: Fs, m': Fs, src: Path, dst: Path, done: set<Name>, n: Name, p: Path)
    requires Apart(src, dst) && n !in done
    requires NothingLost(m1, m, src, dst) && Elsewhere(m1, m, src, dst, done)
    requires NothingLost(m, m', src + [n], dst + [n])
    requires forall p :: dst + [n] <= p ==> p !in m
    ensures SafeAt(m1, m', src, dst, p)
    ensures !Beneath(src, done + {n}, p) && !Beneath(dst, done + {n}, p) ==> Get(m', p) == Get(m1, p)
  {
    var s, d := src + [n], dst + [n];
    ApartBelow(src, dst, p);
    BeneathOne(src, n, p);
    BeneathOne(dst, n, p);
    assert SafeAt(m1, m, src, dst, p) && SafeAt(m, m', s, d, p);
    if src <= p {
      var q := Rebase(p, src, dst);
      RebaseBack(p, src, dst);
      ApartBelow(src, dst, q);
      assert SafeAt(m, m', s, d, q);
      if s <= p {
        RebaseThroughChild(p, src, dst, n);
      } else if d <= q {
        RebaseThroughChild(q, dst, src, n);
      } else {
        BeneathOne(src, n, q);
      }
    }
    if dst <= p {
      var q := Rebase(p, dst, src);
      RebaseBack(p, dst, src);
      ApartBelow(src, dst, q);
      BeneathOne(src, n, q);
      if d <= p {
        RebaseThroughChild(p, dst, src, n);
        assert Get(m, q) == Get(m1, q);
      }
    }
  }

  /** The same, for runs in which the child went over completely. */
  lemma ChildMovedExactly(m1: Fs, m: Fs, src: Path, dst: Path, done: set<Name>, n: Name)
    requires Apart(src, dst) && n !in done
    requires Elsewhere(m1, m, src, dst, done) && Moved(m1, m, src, dst, done)
    requires forall p :: dst + [n] <= p ==> p !in m
    ensures Moved(m1, Relocated(m, src + [n], dst + [n]), src, dst, done + {n})
  {
    var s, d := src + [n], dst + [n];
    var m' := Relocated(m, s, d);
    forall p ensures MovedAt(m1, m', src, dst, done + {n}, p) {
      assert MovedAt(m1, m, src, dst, done, p);
      RelocatedAt(m, s, d, p);
      ApartBelow(src, dst, p);
      BeneathOne(src, n, p);
      BeneathOne(dst, n, p);
      if d <= p {
        RebaseThroughChild(p, dst, src, n);
        var q := Rebase(p, dst, src);
        BeneathOne(src, n, q);
        ApartBelow(src, dst, q);
        assert Get(m, q) == Get(m1, q);
      }
    }
  }

  /** After the last child, nothing but the two directories themselves is left to settle. */
  ghost predicate FallbackDone(m0: Fs, m: Fs, src: Path, dst: Path, done: set<Name>) {
    && WellFormed(m0) && Apart(src, dst) && Get(m0, src) == Some(Dir) && dst !in m0
    && (forall n :: ChildIn(m0, src, n) ==> n in done)
    && Elsewhere(m0[dst := Dir], m, src, dst, done)
    && Moved(m0[dst := Dir], m, src, dst, done)
  }

  lemma NothingLeftBelow(m0: Fs, m: Fs, src: Path, dst: Path, done: set<Name>, p: Path)
    requires FallbackDone(m0, m, src, dst, done) && src <= p && p != src
    ensures p !in m
  {
    ApartBelow(src, dst, p);
    assert MovedAt(m0[dst := Dir], m, src, dst, done, p);
    if p in m && p[|src|] !in done {
      assert Get(m, p) == Get(m0[dst := Dir], p) == Get(m0, p);
      ChildOnTheWay(m0, src, p);
    }
  }

  lemma AllArrived(m0: Fs, m: Fs, src: Path, dst: Path, done: set<Name>, p: Path)
    requires FallbackDone(m0, m, src, dst, done) && dst <= p
    ensures Get(m, p) == Get(m0, Rebase(p, dst, src))
  {
    var m1 := m0[dst := Dir];
    var q := Rebase(p, dst, src);
    RebaseBack(p, dst, src);
    ApartBelow(src, dst, p);
    ApartBelow(src, dst, q);
    assert MovedAt(m1, m, src, dst, done, p);
    if p == dst {
      assert q == src;
      assert !Beneath(dst, done, p);
    } else if p[|dst|] in done {
      assert Beneath(dst, done, p);
    } else {
      AbsentAbove(m0, dst, p);
      assert Get(m, p) == Get(m1, p) == None;
      if q in m0 {
        assert q[|src|] == p[|dst|];
        ChildOnTheWay(m0, src, q);
      }
    }
  }

  /** mkdir, every child over, rmdir: that is a relocation. */
  lemma FallbackIsRelocation(m0: Fs, m: Fs, src: Path, dst: Path, done: set<Name>)
    requires FallbackDone(m0, m, src, dst, done)
    ensures Childless(m, src)
    ensures m - {src} == Relocated(m0, src, dst)
  {
    forall n ensures !ChildIn(m, src, n) {
      NothingLeftBelow(m0, m, src, dst, done, src + [n]);
    }
    forall p ensures Get(m - {src}, p) == Get(Relocated(m0, src, dst), p) {
      RelocatedAt(m0, src, dst, p);
      ApartBelow(src, dst, p);
      if src <= p {
        if p != src {
          NothingLeftBelow(m0, m, src, dst, done, p);
        }
      } else if dst <= p {
        AllArrived(m0, m, src, dst, done, p);
        AbsentAbove(m0, dst, p);
      } else {
        assert Get(m, p) == Get(m0[dst := Dir], p);
      }
    }
    SameLookups(m - {src}, Relocated(m0, src, dst));
  }

  // ---------- renaming ----------

  lemma RenameApart(m: Fs, src: Path, dst: Path)
    requires WellFormed(m) && CanRename(m, src, dst) && src != dst
    ensures Apart(src, dst)
    ensures forall p :: dst <= p && p != dst ==> p !in m
  {
    forall p | dst <= p && p != dst && p in m ensures false {
      AncestorIsDir(m, dst, p);
      ChildOnTheWay(m, dst, p);
    }
  }

  /** A node that came over hangs off the directory that came over with it, or off the
      destination's parent. */
  lemma ArrivedHasParent(m: Fs, src: Path, dst: Path, q: Path)
    requires WellFormed(m) && Apart(src, dst) && HasParentDir(m, dst)
    requires dst <= q && Rebase(q, dst, src) in m
    ensures HasParentDir(Relocated(m, src, dst), q)
  {
    RelocatedAt(m, src, dst, Parent(q));
    if q != dst {
      var p := Rebase(q, dst, src);
      assert HasParentDir(m, p);
      assert Parent(p) == Rebase(Parent(q), dst, src);
    } else {
      assert !(src <= Parent(q));
    }
  }

  lemma StayedHasParent(m: Fs, src: Path, dst: Path, q: Path)
    requires WellFormed(m) && Apart(src, dst) && q in m && q != []
    requires forall p :: dst <= p && p != dst ==> p !in m
    requires !(src <= q) && !(dst <= q)
    ensures HasParentDir(Relocated(m, src, dst), q)
  {
    RelocatedAt(m, src, dst, Parent(q));
    assert HasParentDir(m, q);
  }

  lemma RenamedHasParent(m: Fs, src: Path, dst: Path, q: Path)
    requires WellFormed(m) && CanRename(m, src, dst) && src != dst
    requires q in Relocated(m, src, dst) && q != []
    ensures HasParentDir(Relocated(m, src, dst), q)
  {
    RenameApart(m, src, dst);
    RelocatedAt(m, src, dst, q);
    assert Rebase(dst, dst, src) == src;
    if dst <= q && Rebase(q, dst, src) in m {
      ArrivedHasParent(m, src, dst, q);
    } else {
      StayedHasParent(m, src, dst, q);
    }
  }

  lemma RenameKeepsWellFormed(m: Fs, src: Path, dst: Path)
    requires WellFormed(m) && LegalPath(dst) && CanRename(m, src, dst) && src != dst
    ensures WellFormed(Relocated(m, src, dst))
  {
    var m' := Relocated(m, src, dst);
    RelocatedAt(m, src, dst, []);
    forall q | q in m' ensures LegalPath(q) {
      RelocatedAt(m, src, dst, q);
      if dst <= q && Rebase(q, dst, src) in m {
        var p := Rebase(q, dst, src);
        assert LegalPath(p);
        assert forall i :: |dst| <= i < |q| ==> q[i] == p[i - |dst| + |src|];
      }
    }
    forall q | q in m' && q != [] ensures HasParentDir(m', q) {
      RenamedHasParent(m, src, dst, q);
    }
  }

  lemma RenameLosesNothing(m: Fs, src: Path, dst: Path)
    requires WellFormed(m) && CanRename(m, src, dst) && src != dst
    ensures NothingLost(m, Relocated(m, src, dst), src, dst)
  {
    var m' := Relocated(m, src, dst);
    RenameApart(m, src, dst);
    forall p ensures SafeAt(m, m', src, dst, p) {
      RelocatedAt(m, src, dst, p);
      ApartBelow(src, dst, p);
      if src <= p {
        RebaseBack(p, src, dst);
        RelocatedAt(m, src, dst, Rebase(p, src, dst));
      }
    }
  }

  // ---------- what the state alone tells ----------

  /** A movable tree whose top has gone has gone over completely: no move that loses nothing
      can leave a remainder behind or drop anything on the way. */
  lemma GoneMeansRelocated(m0: Fs, m: Fs, src: Path, dst: Path)
    requires WellFormed(m0) && WellFormed(m) && NothingLost(m0, m, src, dst)
    requires CanMove(m0, src, dst) && !(src <= dst)
    requires src !in m
    ensures m == Relocated(m0, src, dst)
  {
    MovableApart(m0, src, dst);
    forall p ensures Get(m, p) == Get(Relocated(m0, src, dst), p) {
      RelocatedAt(m0, src, dst, p);
      ApartBelow(src, dst, p);
      assert SafeAt(m0, m, src, dst, p);
      if src <= p {
        AbsentAbove(m, src, p);
      } else if dst <= p {
        var q := Rebase(p, dst, src);
        RebaseBack(p, dst, src);
        assert SafeAt(m0, m, src, dst, q);
        AbsentAbove(m, src, q);
        assert p == dst ==> q == src;
      }
    }
    SameLookups(m, Relocated(m0, src, dst));
  }

  /** What can be moved can be moved to a place outside itself that holds nothing but at most
      one file. */
  lemma MovableApart(m: Fs, src: Path, dst: Path)
    requires WellFormed(m) && CanMove(m, src, dst) && !(src <= dst)
    ensures Apart(src, dst)
    ensures forall p :: p in m && dst <= p ==> p == dst
    ensures src !in Relocated(m, src, dst)
  {
    if dst in m {
      FileCanRename(m, src, dst);
    } else {
      forall p | dst <= p ensures p !in m {
        AbsentAbove(m, dst, p);
      }
    }
    RelocatedAt(m, src, dst, src);
  }

  // ---------- single files ----------

  /** A file may be moved onto a free place or over another file; a directory only onto a
      free place. */
  predicate CanMove(m: Fs, src: Path, dst: Path) {
    && src in m && HasParentDir(m, dst)
    && (dst in m ==> m[src].File? && m[dst].File?)
  }

  /** The one case in which the result of a move depends on whether rename works. */
  ghost predicate OntoEmptyDir(m: Fs, src: Path, dst: Path) {
    Get(m, src) == Get(m, dst) == Some(Dir) && Childless(m, dst)
  }

  /** Whether a move comes off when no other call fails, given the answer to rename. */
  ghost predicate MoveSucceeds(m: Fs, src: Path, dst: Path, renameRefused: bool) {
    CanMove(m, src, dst) || (OntoEmptyDir(m, src, dst) && !renameRefused)
  }

  lemma FileCanRename(m: Fs, src: Path, dst: Path)
    requires WellFormed(m) && CanMove(m, src, dst) && m[src].File? && src != dst
    ensures CanRename(m, src, dst) && CanOpenWrite(m, dst)
    ensures Apart(src, dst)
    ensures forall p :: p in m && src <= p ==> p == src
    ensures forall p :: p in m && dst <= p ==> p == dst
  {
    if src <= dst {
      assert src <= Parent(dst);
      if src != Parent(dst) {
        AncestorIsDir(m, src, Parent(dst));
      }
    }
    RenameApart(m, src, dst);
    forall p | p in m && src <= p && p != src ensures false {
      AncestorIsDir(m, src, p);
    }
  }

  /** Whatever can be moved: moving it gives what copying it and deleting the original gives. */
  lemma MoveAgreesWithCopyDelete(m: Fs, src: Path, dst: Path)
    requires WellFormed(m) && CanMove(m, src, dst) && src != dst && !(src <= dst)
    ensures Relocated(m, src, dst) == Deleted(Copied(m, src, dst), src)
  {
    if m[src].File? {
      FileCanRename(m, src, dst);
    } else if dst <= src {
      AbsentAbove(m, dst, src);
    }
    MoveIsCopyThenDelete(m, src, dst);
  }

  /** Copying a file over and unlinking it is a relocation too. */
  lemma CopyUnlinkIsRelocation(m: Fs, src: Path, dst: Path)
    requires WellFormed(m) && CanMove(m, src, dst) && m[src].File? && src != dst
    ensures m[dst := m[src]] - {src} == Relocated(m, src, dst)
    ensures NothingLost(m, m[dst := m[src]], src, dst)
  {
    FileCanRename(m, src, dst);
    var m1 := m[dst := m[src]];
    assert Rebase(src, src, dst) == dst && Rebase(dst, dst, src) == src;
    forall p ensures Get(m1 - {src}, p) == Get(Relocated(m, src, dst), p) {
      RelocatedAt(m, src, dst, p);
      ApartBelow(src, dst, p);
      if dst <= p {
        RebaseBack(p, dst, src);
        assert Rebase(p, dst, src) == src ==> p == dst;
      }
    }
    SameLookups(m1 - {src}, Relocated(m, src, dst));
    forall p ensures SafeAt(m, m1, src, dst, p) {
      ApartBelow(src, dst, p);
    }
  }

  lemma FileReplaced(m: Fs, p: Path, f: Node)
    requires WellFormed(m) && LegalPath(p) && CanOpenWrite(m, p) && f.File?
    ensures WellFormed(m[p := f])
  {
    var m' := m[p := f];
    forall q | q in m' && q != [] ensures HasParentDir(m', q) {
      assert q == p || (q in m && HasParentDir(m, q));
    }
  }

  lemma LeafRemoved(m: Fs, p: Path)
    requires WellFormed(m) && p != []
    requires forall q :: q in m && p <= q ==> q == p
    ensures WellFormed(m - {p})
    ensures m - {p} == Deleted(m, p)
  {
    forall q | q in m - {p} && q != [] ensures HasParentDir(m - {p}, q) {
      assert HasParentDir(m, q);
      assert Parent(q) <= q;
    }
  }

  // ---------- copying ----------

  /** Whatever fails, a copy touches nothing outside `dst`, removes nothing, and what it puts
      at `dst` is part of the tree at `src`. */
  ghost predicate AddedAt(before: Fs, after: Fs, src: Path, dst: Path, p: Path) {
    && (!(dst <= p) ==> Get(after, p) == Get(before, p))
    && (p in after && dst <= p ==>
          Get(after, p) == Get(before, p) || Get(after, p) == Get(before, Rebase(p, dst, src)))
    && (p in before ==> p in after)
  }

  ghost predicate CopyOnlyAdds(before: Fs, after: Fs, src: Path, dst: Path) {
    forall p :: AddedAt(before, after, src, dst, p)
  }

  /** Outside the children `done` of `d` nothing differs. */
  ghost predicate ElsewhereOne(before: Fs, after: Fs, d: Path, done: set<Name>) {
    forall p {:trigger Get(after, p)} :: !Beneath(d, done, p) ==> Get(after, p) == Get(before, p)
  }

  ghost predicate DuplicatedAt(before: Fs, after: Fs, src: Path, dst: Path, done: set<Name>, p: Path) {
    Beneath(dst, done, p) ==> Get(after, p) == Get(before, Rebase(p, dst, src))
  }

  ghost predicate Duplicated(before: Fs, after: Fs, src: Path, dst: Path, done: set<Name>) {
    forall p :: DuplicatedAt(before, after, src, dst, done, p)
  }

  lemma ChildCopied(m1: Fs, m: Fs, m': Fs, src: Path, dst: Path, done: set<Name>, n: Name)
    requires Apart(src, dst) && n !in done
    requires CopyOnlyAdds(m1, m, src, dst) && ElsewhereOne(m1, m, dst, done)
    requires CopyOnlyAdds(m, m', src + [n], dst + [n])
    ensures CopyOnlyAdds(m1, m', src, dst)
    ensures ElsewhereOne(m1, m', dst, done + {n})
  {
    var s, d := src + [n], dst + [n];
    forall p
      ensures AddedAt(m1, m', src, dst, p)
      ensures !Beneath(dst, done + {n}, p) ==> Get(m', p) == Get(m1, p)
    {
      BeneathOne(dst, n, p);
      assert AddedAt(m1, m, src, dst, p) && AddedAt(m, m', s, d, p);
      if d <= p {
        RebaseThroughChild(p, dst, src, n);
        var q := Rebase(p, dst, src);
        RebaseBack(p, dst, src);
        ApartBelow(src, dst, q);
        assert Get(m, q) == Get(m1, q);
      }
    }
  }

  lemma ChildCopiedExactly(m1: Fs, m: Fs, src: Path, dst: Path, done: set<Name>, n: Name)
    requires Apart(src, dst) && n !in done
    requires ElsewhereOne(m1, m, dst, done) && Duplicated(m1, m, src, dst, done)
    requires forall p :: dst + [n] <= p ==> p !in m
    ensures Duplicated(m1, Copied(m, src + [n], dst + [n]), src, dst, done + {n})
  {
    var s, d := src + [n], dst + [n];
    var m' := Copied(m, s, d);
    forall p ensures DuplicatedAt(m1, m', src, dst, done + {n}, p) {
      assert DuplicatedAt(m1, m, src, dst, done, p);
      CopiedAt(m, s, d, p);
      BeneathOne(dst, n, p);
      if d <= p {
        RebaseThroughChild(p, dst, src, n);
        var q := Rebase(p, dst, src);
        RebaseBack(p, dst, src);
        ApartBelow(src, dst, q);
        assert Get(m, q) == Get(m1, q);
      }
    }
  }

  /** mkdir and every child over: that is a copy of the tree. */
  lemma AllCopied(m0: Fs, m: Fs, src: Path, dst: Path, done: set<Name>)
    requires WellFormed(m0) && Apart(src, dst) && Get(m0, src) == Some(Dir) && dst !in m0
    requires forall n :: ChildIn(m0, src, n) ==> n in done
    requires ElsewhereOne(m0[dst := Dir], m, dst, done)
    requires Duplicated(m0[dst := Dir], m, src, dst, done)
    ensures m == Copied(m0, src, dst)
  {
    var m1 := m0[dst := Dir];
    forall p ensures Get(m, p) == Get(Copied(m0, src, dst), p) {
      CopiedAt(m0, src, dst, p);
      if dst <= p {
        var q := Rebase(p, dst, src);
        RebaseBack(p, dst, src);
        ApartBelow(src, dst, q);
        AbsentAbove(m0, dst, p);
        assert DuplicatedAt(m1, m, src, dst, done, p);
        if p == dst {
          assert q == src;
        } else if p[|dst|] in done {
          assert Beneath(dst, done, p);
        } else if q in m0 {
          assert q[|src|] == p[|dst|];
          ChildOnTheWay(m0, src, q);
        }
      }
    }
    SameLookups(m, Copied(m0, src, dst));
  }

  ghost predicate SameAt(m: Fs, src: Path, dst: Path, p: Path) {
    dst <= p ==> Get(m, p) == Get(m, Rebase(p, dst, src))
  }

  /** The trees at `src` and at `dst` are alike. */
  ghost predicate SameTree(m: Fs, src: Path, dst: Path) {
    forall p :: SameAt(m, src, dst, p)
  }

  /** A copy to a free place is complete exactly when the two trees are alike afterwards. */
  lemma CompleteIsSameTree(m0: Fs, m: Fs, src: Path, dst: Path)
    requires WellFormed(m0) && Apart(src, dst) && dst !in m0
    requires CopyOnlyAdds(m0, m, src, dst)
    ensures m == Copied(m0, src, dst) <==> SameTree(m, src, dst)
  {
    forall p
      ensures Get(m, p) == Get(Copied(m0, src, dst), p) <==> SameAt(m, src, dst, p)
    {
      CopiedAt(m0, src, dst, p);
      assert AddedAt(m0, m, src, dst, p);
      if dst <= p {
        AbsentAbove(m0, dst, p);
        var q := Rebase(p, dst, src);
        RebaseBack(p, dst, src);
        ApartBelow(src, dst, q);
        assert AddedAt(m0, m, src, dst, q);
      }
    }
    if SameTree(m, src, dst) {
      forall p ensures Get(m, p) == Get(Copied(m0, src, dst), p) {
        assert SameAt(m, src, dst, p);
      }
      SameLookups(m, Copied(m0, src, dst));
    }
  }

  /** Trees that are alike have entries that are alike. */
  lemma SameEntry(m: Fs, src: Path, dst: Path, n: Name)
    requires SameTree(m, src, dst)
    ensures SameTree(m, src + [n], dst + [n])
  {
    forall p ensures SameAt(m, src + [n], dst + [n], p) {
      if dst + [n] <= p {
        RebaseThroughChild(p, dst, src, n);
        assert SameAt(m, src, dst, p);
      }
    }
  }

  /** Copying one entry leaves the comparison of another one as it was. */
  lemma OtherEntry(m: Fs, m': Fs, src: Path, dst: Path, n: Name, k: Name)
    requires Apart(src, dst) && n != k
    requires CopyOnlyAdds(m, m', src + [n], dst + [n])
    requires SameTree(m', src + [k], dst + [k])
    ensures SameTree(m, src + [k], dst + [k])
  {
    forall p ensures SameAt(m, src + [k], dst + [k], p) {
      if dst + [k] <= p {
        RebaseThroughChild(p, dst, src, k);
        var q := Rebase(p, dst, src);
        RebaseBack(p, dst, src);
        ApartBelow(src, dst, q);
        BeneathOne(dst, n, p);
        BeneathOne(dst, k, p);
        BeneathOne(dst, n, q);
        assert SameAt(m', src + [k], dst + [k], p);
        assert AddedAt(m, m', src + [n], dst + [n], p) && AddedAt(m, m', src + [n], dst + [n], q);
      }
    }
  }

  lemma FileCopied(m: Fs, src: Path, dst: Path)
    requires WellFormed(m) && CanMove(m, src, dst) && m[src].File? && src != dst
    ensures m[dst := m[src]] == Copied(m, src, dst)
    ensures CopyOnlyAdds(m, m[dst := m[src]], src, dst)
  {
    FileCanRename(m, src, dst);
    assert Rebase(src, src, dst) == dst && Rebase(dst, dst, src) == src;
    forall p ensures Get(m[dst := m[src]], p) == Get(Copied(m, src, dst), p) {
      CopiedAt(m, src, dst, p);
      if dst <= p {
        RebaseBack(p, dst, src);
        assert Rebase(p, dst, src) == src ==> p == dst;
      }
    }
    SameLookups(m[dst := m[src]], Copied(m, src, dst));
  }

  // ---------- deleting ----------

  /** Whatever fails, a delete only removes, and only at or under `d`. */
  ghost predicate DeleteOnlyRemoves(before: Fs, after: Fs, d: Path) {
    && (forall p :: !(d <= p) ==> Get(after, p) == Get(before, p))
    && (forall p :: p in after ==> Get(after, p) == Get(before, p))
  }

  lemma ChildDeleted(m1: Fs, m: Fs, m': Fs, d: Path, done: set<Name>, n: Name)
    requires DeleteOnlyRemoves(m1, m, d) && ElsewhereOne(m1, m, d, done)
    requires DeleteOnlyRemoves(m, m', d + [n])
    ensures DeleteOnlyRemoves(m1, m', d)
    ensures ElsewhereOne(m1, m', d, done + {n})
  {
    forall p
      ensures d + [n] <= p ==> d <= p
      ensures !Beneath(d, done + {n}, p) ==> Get(m', p) == Get(m1, p)
    {
      BeneathOne(d, n, p);
    }
  }

  lemma AllDeleted(m0: Fs, m: Fs, d: Path, done: set<Name>)
    requires WellFormed(m0) && Get(m0, d) == Some(Dir)
    requires forall n :: ChildIn(m0, d, n) ==> n in done
    requires ElsewhereOne(m0, m, d, done)
    requires forall p :: Beneath(d, done, p) ==> p !in m
    ensures Childless(m, d) && Get(m, d) == Some(Dir)
    ensures m - {d} == Deleted(m0, d)
  {
    forall p | d <= p && p != d ensures p !in m {
      if p in m && p[|d|] !in done {
        assert Get(m, p) == Get(m0, p);
        ChildOnTheWay(m0, d, p);
      }
    }
    forall n ensures !ChildIn(m, d, n) {
      assert d <= d + [n];
    }
    forall p ensures Get(m - {d}, p) == Get(Deleted(m0, d), p) {
      if !(d <= p) {
        assert Get(m, p) == Get(m0, p);
      }
    }
    SameLookups(m - {d}, Deleted(m0, d));
  }
}
