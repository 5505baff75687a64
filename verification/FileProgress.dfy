/** How far the file engine gets when calls are refused: what happens to one path does not depend
    on what happens to the paths beside it. */
module FileProgress {
  import opened Basics
  import opened Paths
  import opened FileTree

  /** Which call is refused at which point of a run. */
  datatype Environment = Environment(refuses: (Call, nat) -> bool)

  predicate RefusedBy(env: Environment, c: Call, t: nat) {
    env.refuses(c, t)
  }

  // ---------- which calls stand between the top of an operation and a path ----------

  /** Call `c` is about a path at or under `p`, or about a directory on the way from `top` down to
      `p`.  Removing such a directory comes after the work below it and is no hindrance, and a
      rename that does not work is made up for. */
  ghost predicate Hinders(c: Call, top: Path, p: Path) {
    match c
    case Rename(_, _) => false
    case Rmdir(q) => top <= q && p <= q
    case _ => top <= c.p && (p <= c.p || c.p <= p)
  }

  /** From call number `t0` up to `t1` no such call is refused. */
  ghost predicate Clear(env: Environment, t0: nat, t1: nat, top: Path, p: Path) {
    forall c, t :: ClearAt(env, t0, t1, top, p, c, t)
  }

  ghost predicate ClearAt(env: Environment, t0: nat, t1: nat, top: Path, p: Path, c: Call, t: nat) {
    t0 <= t < t1 && RefusedBy(env, c, t) ==> !Hinders(c, top, p)
  }

  /** The same at both ends of a copy or move. */
  ghost predicate Passes(env: Environment, t0: nat, t1: nat, src: Path, dst: Path, p: Path) {
    src <= p && Clear(env, t0, t1, src, p) && Clear(env, t0, t1, dst, Rebase(p, src, dst))
  }

  lemma ClearWithin(env: Environment, t0: nat, t1: nat, u0: nat, u1: nat, top: Path, n: Name, p: Path)
    requires Clear(env, t0, t1, top, p) && t0 <= u0 && u1 <= t1
    ensures Clear(env, u0, u1, top, p)
    ensures top + [n] <= p ==> Clear(env, u0, u1, top + [n], p)
    ensures p == top ==> Clear(env, u0, u1, top + [n], top + [n])
  {
    assert top <= top + [n];
    forall c, t
      ensures ClearAt(env, u0, u1, top, p, c, t)
      ensures top + [n] <= p ==> ClearAt(env, u0, u1, top + [n], p, c, t)
      ensures p == top ==> ClearAt(env, u0, u1, top + [n], top + [n], c, t)
    {
      assert ClearAt(env, t0, t1, top, p, c, t);
      if !c.Rename? && top + [n] <= c.p {
        BeneathOne(top, n, c.p);
      }
    }
  }

  /** What passes as part of a tree passes as part of the entry it belongs to. */
  lemma PassesWithin(env: Environment, t0: nat, t1: nat, u0: nat, u1: nat, src: Path, dst: Path, n: Name, p: Path)
    requires Passes(env, t0, t1, src, dst, p) && t0 <= u0 && u1 <= t1
    ensures Passes(env, u0, u1, src, dst, p)
    ensures src + [n] <= p ==> Passes(env, u0, u1, src + [n], dst + [n], p)
    ensures p == src ==> Passes(env, u0, u1, src + [n], dst + [n], src + [n])
  {
    ClearWithin(env, t0, t1, u0, u1, src, n, p);
    ClearWithin(env, t0, t1, u0, u1, dst, n, Rebase(p, src, dst));
    if src + [n] <= p {
      RebaseThroughChild(p, src, dst, n);
    }
    assert Rebase(src, src, dst) == dst;
    assert Rebase(src + [n], src + [n], dst + [n]) == dst + [n];
  }

  /** If the whole tree passes, each of its entries does, as part of it. */
  lemma PassesToEntry(env: Environment, t0: nat, t1: nat, u0: nat, u1: nat, src: Path, dst: Path, n: Name)
    requires Passes(env, t0, t1, src, dst, src) && t0 <= u0 && u1 <= t1
    ensures Passes(env, u0, u1, src, dst, src + [n])
  {
    assert Rebase(src, src, dst) == dst && Rebase(src + [n], src, dst) == dst + [n];
    ClearToEntry(env, t0, t1, u0, u1, src, n);
    ClearToEntry(env, t0, t1, u0, u1, dst, n);
  }

  lemma ClearToEntry(env: Environment, t0: nat, t1: nat, u0: nat, u1: nat, top: Path, n: Name)
    requires Clear(env, t0, t1, top, top) && t0 <= u0 && u1 <= t1
    ensures Clear(env, u0, u1, top, top + [n])
  {
    forall c, t ensures ClearAt(env, u0, u1, top, top + [n], c, t) {
      assert ClearAt(env, t0, t1, top, top, c, t);
    }
  }

  /** If the whole tree passes, no call about its top is refused. */
  lemma TopPasses(env: Environment, t0: nat, t1: nat, src: Path, dst: Path, c: Call, t: nat)
    requires t0 <= t < t1 && !c.Rename? && (c.p == src || c.p == dst)
    ensures Passes(env, t0, t1, src, dst, src) ==> !RefusedBy(env, c, t)
  {
    assert Rebase(src, src, dst) == dst;
    if Passes(env, t0, t1, src, dst, src) {
      assert ClearAt(env, t0, t1, src, src, c, t) && ClearAt(env, t0, t1, dst, dst, c, t);
    }
  }

  /** A call about the top, made before any entry is reached, stands in everything's way. */
  lemma NothingPasses(env: Environment, t0: nat, t1: nat, src: Path, dst: Path, p: Path, c: Call, t: nat)
    requires t0 <= t < t1 && RefusedBy(env, c, t)
    requires c == Stat(src) || c == Opendir(src) || c == Mkdir(dst)
    ensures !Passes(env, t0, t1, src, dst, p)
  {
    if src <= p {
      RebaseBack(p, src, dst);
      assert !ClearAt(env, t0, t1, src, p, c, t) || !ClearAt(env, t0, t1, dst, Rebase(p, src, dst), c, t);
    }
  }

  // ---------- moving ----------

  ghost predicate WentAt(m0: Fs, m: Fs, src: Path, dst: Path, q: Path) {
    src <= q ==> q !in m && Get(m, Rebase(q, src, dst)) == Get(m0, q)
  }

  /** Everything at and under `p` has gone over. */
  ghost predicate Went(m0: Fs, m: Fs, src: Path, dst: Path, p: Path) {
    forall q :: p <= q ==> WentAt(m0, m, src, dst, q)
  }

  /** Whatever passes has gone over. */
  ghost predicate MoveProgress(env: Environment, t0: nat, t1: nat, m0: Fs, m: Fs, src: Path, dst: Path) {
    forall p :: MoveProgressAt(env, t0, t1, m0, m, src, dst, p)
  }

  ghost predicate MoveProgressAt(env: Environment, t0: nat, t1: nat, m0: Fs, m: Fs, src: Path, dst: Path, p: Path) {
    p in m0 && Passes(env, t0, t1, src, dst, p) ==> Went(m0, m, src, dst, p)
  }

  /** The same for the entries `done`. */
  ghost predicate MoveProgressIn(env: Environment, t0: nat, t1: nat, m0: Fs, m: Fs, src: Path, dst: Path, done: set<Name>) {
    forall p {:trigger MoveProgressAt(env, t0, t1, m0, m, src, dst, p)} :: Beneath(src, done, p) ==> MoveProgressAt(env, t0, t1, m0, m, src, dst, p)
  }

  /** The same for everything below the top. */
  ghost predicate MoveProgressBelow(env: Environment, t0: nat, t1: nat, m0: Fs, m: Fs, src: Path, dst: Path) {
    forall p {:trigger MoveProgressAt(env, t0, t1, m0, m, src, dst, p)} :: p != src ==> MoveProgressAt(env, t0, t1, m0, m, src, dst, p)
  }

  lemma RelocatedWent(m0: Fs, src: Path, dst: Path, p: Path)
    requires WellFormed(m0) && CanMove(m0, src, dst) && !(src <= dst) && src <= p
    ensures Went(m0, Relocated(m0, src, dst), src, dst, p)
  {
    MovableApart(m0, src, dst);
    forall q | p <= q ensures WentAt(m0, Relocated(m0, src, dst), src, dst, q) {
      var r := Rebase(q, src, dst);
      RebaseBack(q, src, dst);
      ApartBelow(src, dst, q);
      ApartBelow(src, dst, r);
      RelocatedAt(m0, src, dst, q);
      RelocatedAt(m0, src, dst, r);
      assert r == dst ==> q == src;
    }
  }

  lemma WholeMoveProgress(env: Environment, t0: nat, t1: nat, m0: Fs, src: Path, dst: Path)
    requires WellFormed(m0) && CanMove(m0, src, dst) && !(src <= dst)
    ensures MoveProgress(env, t0, t1, m0, Relocated(m0, src, dst), src, dst)
  {
    forall p ensures MoveProgressAt(env, t0, t1, m0, Relocated(m0, src, dst), src, dst, p) {
      if src <= p {
        RelocatedWent(m0, src, dst, p);
      }
    }
  }

  lemma StoppedMove(env: Environment, t0: nat, t1: nat, m0: Fs, m: Fs, src: Path, dst: Path, c: Call, t: nat)
    requires t0 <= t < t1 && RefusedBy(env, c, t)
    requires c == Stat(src) || c == Opendir(src) || c == Mkdir(dst)
    ensures MoveProgress(env, t0, t1, m0, m, src, dst)
  {
    forall p ensures MoveProgressAt(env, t0, t1, m0, m, src, dst, p) {
      NothingPasses(env, t0, t1, src, dst, p, c, t);
    }
  }

  /** What passes over a whole stretch passes over its second part. */
  lemma MoveProgressLater(env: Environment, t0: nat, u0: nat, t1: nat, m0: Fs, m: Fs, src: Path, dst: Path)
    requires t0 <= u0 && MoveProgress(env, u0, t1, m0, m, src, dst)
    ensures MoveProgress(env, t0, t1, m0, m, src, dst)
  {
    forall p ensures MoveProgressAt(env, t0, t1, m0, m, src, dst, p) {
      assert MoveProgressAt(env, u0, t1, m0, m, src, dst, p);
      if Passes(env, t0, t1, src, dst, p) {
        PassesWithin(env, t0, t1, u0, t1, src, dst, "", p);
      }
    }
  }

  lemma FileMoveProgress(env: Environment, t0: nat, t1: nat, m0: Fs, m: Fs, src: Path, dst: Path)
    requires WellFormed(m0) && CanMove(m0, src, dst) && !(src <= dst) && m0[src].File?
    requires Passes(env, t0, t1, src, dst, src) ==> m == Relocated(m0, src, dst)
    ensures MoveProgress(env, t0, t1, m0, m, src, dst)
  {
    FileCanRename(m0, src, dst);
    RelocatedWent(m0, src, dst, src);
    forall p ensures MoveProgressAt(env, t0, t1, m0, m, src, dst, p) {
    }
  }

  /** Moving entry `n` does not undo what went over with another entry. */
  lemma WentStays(m0: Fs, mb: Fs, m: Fs, src: Path, dst: Path, n: Name, p: Path)
    requires Apart(src, dst) && src <= p && src != p && p[|src|] != n
    requires Went(m0, mb, src, dst, p) && NothingLost(mb, m, src + [n], dst + [n])
    ensures Went(m0, m, src, dst, p)
  {
    forall q | p <= q ensures WentAt(m0, m, src, dst, q) {
      assert WentAt(m0, mb, src, dst, q);
      var r := Rebase(q, src, dst);
      RebaseBack(q, src, dst);
      ApartBelow(src, dst, q);
      ApartBelow(src, dst, r);
      assert q[|src|] == p[|src|] && r[|dst|] == q[|src|];
      BeneathOne(src, n, q);
      BeneathOne(dst, n, q);
      BeneathOne(src, n, r);
      BeneathOne(dst, n, r);
      assert SafeAt(mb, m, src + [n], dst + [n], q) && SafeAt(mb, m, src + [n], dst + [n], r);
    }
  }

  /** What went over as part of an entry went over as part of the tree. */
  lemma WentWithEntry(m0: Fs, mb: Fs, m: Fs, src: Path, dst: Path, n: Name, p: Path)
    requires src + [n] <= p && Went(mb, m, src + [n], dst + [n], p)
    requires forall q :: src + [n] <= q ==> Get(mb, q) == Get(m0, q)
    ensures Went(m0, m, src, dst, p)
  {
    forall q | p <= q ensures WentAt(m0, m, src, dst, q) {
      assert WentAt(mb, m, src + [n], dst + [n], q);
      RebaseThroughChild(q, src, dst, n);
    }
  }

  /** One turn of the loop: the entry's own progress, and that of the entries before it. */
  lemma MoveProgressTurn(env: Environment, t0: nat, tb: nat, t1: nat, m0: Fs, mb: Fs, m: Fs,
                         src: Path, dst: Path, done: set<Name>, n: Name)
    requires Apart(src, dst) && n !in done && t0 <= tb <= t1
    requires MoveProgressIn(env, t0, tb, m0, mb, src, dst, done)
    requires forall q :: src + [n] <= q ==> Get(mb, q) == Get(m0, q)
    requires NothingLost(mb, m, src + [n], dst + [n]) && MoveProgress(env, tb, t1, mb, m, src + [n], dst + [n])
    ensures MoveProgressIn(env, t0, t1, m0, m, src, dst, done + {n})
  {
    forall p | Beneath(src, done + {n}, p) ensures MoveProgressAt(env, t0, t1, m0, m, src, dst, p) {
      BeneathOne(src, n, p);
      if !(p in m0 && Passes(env, t0, t1, src, dst, p)) {
      } else if src + [n] <= p {
        PassesWithin(env, t0, t1, tb, t1, src, dst, n, p);
        assert Get(mb, p) == Get(m0, p);
        assert MoveProgressAt(env, tb, t1, mb, m, src + [n], dst + [n], p);
        WentWithEntry(m0, mb, m, src, dst, n, p);
      } else {
        PassesWithin(env, t0, t1, t0, tb, src, dst, n, p);
        assert Beneath(src, done, p);
        assert MoveProgressAt(env, t0, tb, m0, mb, src, dst, p);
        WentStays(m0, mb, m, src, dst, n, p);
      }
    }
  }

  /** Everything below the top belongs to one of its entries. */
  lemma MoveEntriesDone(env: Environment, t0: nat, t1: nat, m0: Fs, m: Fs, src: Path, dst: Path, done: set<Name>)
    requires WellFormed(m0) && MoveProgressIn(env, t0, t1, m0, m, src, dst, done)
    requires forall n :: ChildIn(m0, src, n) ==> n in done
    ensures MoveProgressBelow(env, t0, t1, m0, m, src, dst)
  {
    forall p | p != src ensures MoveProgressAt(env, t0, t1, m0, m, src, dst, p) {
      if p in m0 && src <= p {
        ChildOnTheWay(m0, src, p);
        assert Beneath(src, done, p);
        assert MoveProgressAt(env, t0, t1, m0, m, src, dst, p);
      }
    }
  }

  /** If everything passes, the entries have all gone and the directory can be removed. */
  lemma TopEmptied(env: Environment, t0: nat, u0: nat, u1: nat, t1: nat, m0: Fs, m: Fs, src: Path, dst: Path)
    requires NothingLost(m0, m, src, dst) && t0 <= u0 && u1 <= t1
    requires MoveProgressBelow(env, u0, u1, m0, m, src, dst)
    ensures Passes(env, t0, t1, src, dst, src) ==> Childless(m, src)
  {
    if Passes(env, t0, t1, src, dst, src) {
      forall n ensures !ChildIn(m, src, n) {
        var p := src + [n];
        assert src <= p && SafeAt(m0, m, src, dst, p);
        PassesToEntry(env, t0, t1, u0, u1, src, dst, n);
        assert MoveProgressAt(env, u0, u1, m0, m, src, dst, p);
        assert p in m0 ==> WentAt(m0, m, src, dst, p);
      }
    }
  }

  /** The rmdir at the end changes nothing below the top. */
  lemma DirMoveProgress(env: Environment, t0: nat, u0: nat, u1: nat, t1: nat, m0: Fs, m: Fs, m': Fs, src: Path, dst: Path)
    requires WellFormed(m0) && WellFormed(m') && CanMove(m0, src, dst) && Apart(src, dst) && t0 <= u0 && u1 <= t1
    requires NothingLost(m0, m', src, dst)
    requires MoveProgressBelow(env, u0, u1, m0, m, src, dst) && (m' == m || m' == m - {src})
    requires Passes(env, t0, t1, src, dst, src) ==> src !in m'
    ensures MoveProgress(env, t0, t1, m0, m', src, dst)
  {
    if src !in m' {
      GoneMeansRelocated(m0, m', src, dst);
      RelocatedWent(m0, src, dst, src);
    }
    MoveProgressEnds(env, t0, u0, u1, t1, m0, m, m', src, dst);
  }

  lemma MoveProgressEnds(env: Environment, t0: nat, u0: nat, u1: nat, t1: nat, m0: Fs, m: Fs, m': Fs, src: Path, dst: Path)
    requires Apart(src, dst) && t0 <= u0 && u1 <= t1
    requires MoveProgressBelow(env, u0, u1, m0, m, src, dst) && (m' == m || m' == m - {src})
    requires Passes(env, t0, t1, src, dst, src) ==> Went(m0, m', src, dst, src)
    ensures MoveProgress(env, t0, t1, m0, m', src, dst)
  {
    forall p ensures MoveProgressAt(env, t0, t1, m0, m', src, dst, p) {
      if p != src && Passes(env, t0, t1, src, dst, p) && p in m0 {
        assert MoveProgressAt(env, u0, u1, m0, m, src, dst, p);
        PassesWithin(env, t0, t1, u0, u1, src, dst, "", p);
        forall q | p <= q ensures WentAt(m0, m', src, dst, q) {
          assert WentAt(m0, m, src, dst, q);
          RebaseBack(q, src, dst);
          ApartBelow(src, dst, Rebase(q, src, dst));
        }
      }
    }
  }

  /** With every other call succeeding, a movable tree ends up in its new place, whichever renames
      are refused, at any depth. */
  lemma RenamesDoNotMatter(env: Environment, t0: nat, t1: nat, m0: Fs, m: Fs, src: Path, dst: Path)
    requires WellFormed(m0) && WellFormed(m) && CanMove(m0, src, dst) && !(src <= dst)
    requires NothingLost(m0, m, src, dst) && MoveProgress(env, t0, t1, m0, m, src, dst)
    requires forall c, t :: t0 <= t < t1 && RefusedBy(env, c, t) ==> c.Rename?
    ensures m == Relocated(m0, src, dst)
  {
    assert Clear(env, t0, t1, src, src) && Clear(env, t0, t1, dst, Rebase(src, src, dst)) by {
      forall c, t
        ensures ClearAt(env, t0, t1, src, src, c, t) && ClearAt(env, t0, t1, dst, Rebase(src, src, dst), c, t)
      {
      }
    }
    assert MoveProgressAt(env, t0, t1, m0, m, src, dst, src);
    assert WentAt(m0, m, src, dst, src);
    GoneMeansRelocated(m0, m, src, dst);
  }

  // ---------- copying ----------

  ghost predicate CameAt(m0: Fs, m: Fs, src: Path, dst: Path, q: Path) {
    src <= q ==> Get(m, Rebase(q, src, dst)) == Get(m0, q)
  }

  /** The copy of everything at and under `p` is there, and nothing else in its place. */
  ghost predicate Came(m0: Fs, m: Fs, src: Path, dst: Path, p: Path) {
    forall q :: p <= q ==> CameAt(m0, m, src, dst, q)
  }

  ghost predicate CopyProgress(env: Environment, t0: nat, t1: nat, m0: Fs, m: Fs, src: Path, dst: Path) {
    forall p :: CopyProgressAt(env, t0, t1, m0, m, src, dst, p)
  }

  ghost predicate CopyProgressAt(env: Environment, t0: nat, t1: nat, m0: Fs, m: Fs, src: Path, dst: Path, p: Path) {
    p in m0 && Passes(env, t0, t1, src, dst, p) ==> Came(m0, m, src, dst, p)
  }

  ghost predicate CopyProgressIn(env: Environment, t0: nat, t1: nat, m0: Fs, m: Fs, src: Path, dst: Path, done: set<Name>) {
    forall p {:trigger CopyProgressAt(env, t0, t1, m0, m, src, dst, p)} :: Beneath(src, done, p) ==> CopyProgressAt(env, t0, t1, m0, m, src, dst, p)
  }

  ghost predicate CopyProgressBelow(env: Environment, t0: nat, t1: nat, m0: Fs, m: Fs, src: Path, dst: Path) {
    forall p {:trigger CopyProgressAt(env, t0, t1, m0, m, src, dst, p)} :: p != src ==> CopyProgressAt(env, t0, t1, m0, m, src, dst, p)
  }

  lemma CopiedCame(m0: Fs, src: Path, dst: Path, p: Path)
    requires WellFormed(m0) && CanMove(m0, src, dst) && !(src <= dst) && src <= p
    ensures Came(m0, Copied(m0, src, dst), src, dst, p)
  {
    MovableApart(m0, src, dst);
    forall q | p <= q ensures CameAt(m0, Copied(m0, src, dst), src, dst, q) {
      var r := Rebase(q, src, dst);
      RebaseBack(q, src, dst);
      CopiedAt(m0, src, dst, r);
      assert r == dst ==> q == src;
    }
  }

  lemma StoppedCopy(env: Environment, t0: nat, t1: nat, m0: Fs, m: Fs, src: Path, dst: Path, c: Call, t: nat)
    requires t0 <= t < t1 && RefusedBy(env, c, t)
    requires c == Stat(src) || c == Opendir(src) || c == Mkdir(dst)
    ensures CopyProgress(env, t0, t1, m0, m, src, dst)
  {
    forall p ensures CopyProgressAt(env, t0, t1, m0, m, src, dst, p) {
      NothingPasses(env, t0, t1, src, dst, p, c, t);
    }
  }

  lemma CopyProgressLater(env: Environment, t0: nat, u0: nat, t1: nat, m0: Fs, m: Fs, src: Path, dst: Path)
    requires t0 <= u0 && CopyProgress(env, u0, t1, m0, m, src, dst)
    ensures CopyProgress(env, t0, t1, m0, m, src, dst)
  {
    forall p ensures CopyProgressAt(env, t0, t1, m0, m, src, dst, p) {
      assert CopyProgressAt(env, u0, t1, m0, m, src, dst, p);
      if Passes(env, t0, t1, src, dst, p) {
        PassesWithin(env, t0, t1, u0, t1, src, dst, "", p);
      }
    }
  }

  lemma FileCopyProgress(env: Environment, t0: nat, t1: nat, m0: Fs, m: Fs, src: Path, dst: Path)
    requires WellFormed(m0) && CanMove(m0, src, dst) && !(src <= dst) && m0[src].File?
    requires Passes(env, t0, t1, src, dst, src) ==> m == Copied(m0, src, dst)
    ensures CopyProgress(env, t0, t1, m0, m, src, dst)
  {
    FileCanRename(m0, src, dst);
    CopiedCame(m0, src, dst, src);
    forall p ensures CopyProgressAt(env, t0, t1, m0, m, src, dst, p) {
    }
  }

  lemma CameStays(m0: Fs, mb: Fs, m: Fs, src: Path, dst: Path, n: Name, p: Path)
    requires src <= p && src != p && p[|src|] != n
    requires Came(m0, mb, src, dst, p) && CopyOnlyAdds(mb, m, src + [n], dst + [n])
    ensures Came(m0, m, src, dst, p)
  {
    forall q | p <= q ensures CameAt(m0, m, src, dst, q) {
      assert CameAt(m0, mb, src, dst, q);
      var r := Rebase(q, src, dst);
      RebaseBack(q, src, dst);
      assert q[|src|] == p[|src|] && r[|dst|] == q[|src|];
      BeneathOne(dst, n, r);
      assert AddedAt(mb, m, src + [n], dst + [n], r);
    }
  }

  lemma CameWithEntry(m0: Fs, mb: Fs, m: Fs, src: Path, dst: Path, n: Name, p: Path)
    requires src + [n] <= p && Came(mb, m, src + [n], dst + [n], p)
    requires forall q :: src + [n] <= q ==> Get(mb, q) == Get(m0, q)
    ensures Came(m0, m, src, dst, p)
  {
    forall q | p <= q ensures CameAt(m0, m, src, dst, q) {
      assert CameAt(mb, m, src + [n], dst + [n], q);
      RebaseThroughChild(q, src, dst, n);
    }
  }

  lemma CopyProgressTurn(env: Environment, t0: nat, tb: nat, t1: nat, m0: Fs, mb: Fs, m: Fs,
                         src: Path, dst: Path, done: set<Name>, n: Name)
    requires n !in done && t0 <= tb <= t1
    requires CopyProgressIn(env, t0, tb, m0, mb, src, dst, done)
    requires forall q :: src + [n] <= q ==> Get(mb, q) == Get(m0, q)
    requires CopyOnlyAdds(mb, m, src + [n], dst + [n]) && CopyProgress(env, tb, t1, mb, m, src + [n], dst + [n])
    ensures CopyProgressIn(env, t0, t1, m0, m, src, dst, done + {n})
  {
    forall p | Beneath(src, done + {n}, p) ensures CopyProgressAt(env, t0, t1, m0, m, src, dst, p) {
      BeneathOne(src, n, p);
      if !(p in m0 && Passes(env, t0, t1, src, dst, p)) {
      } else if src + [n] <= p {
        PassesWithin(env, t0, t1, tb, t1, src, dst, n, p);
        assert Get(mb, p) == Get(m0, p);
        assert CopyProgressAt(env, tb, t1, mb, m, src + [n], dst + [n], p);
        CameWithEntry(m0, mb, m, src, dst, n, p);
      } else {
        PassesWithin(env, t0, t1, t0, tb, src, dst, n, p);
        assert Beneath(src, done, p);
        assert CopyProgressAt(env, t0, tb, m0, mb, src, dst, p);
        CameStays(m0, mb, m, src, dst, n, p);
      }
    }
  }

  lemma CopyEntriesDone(env: Environment, t0: nat, t1: nat, m0: Fs, m: Fs, src: Path, dst: Path, done: set<Name>)
    requires WellFormed(m0) && CopyProgressIn(env, t0, t1, m0, m, src, dst, done)
    requires forall n :: ChildIn(m0, src, n) ==> n in done
    ensures CopyProgressBelow(env, t0, t1, m0, m, src, dst)
  {
    forall p | p != src ensures CopyProgressAt(env, t0, t1, m0, m, src, dst, p) {
      if p in m0 && src <= p {
        ChildOnTheWay(m0, src, p);
        assert Beneath(src, done, p);
        assert CopyProgressAt(env, t0, t1, m0, m, src, dst, p);
      }
    }
  }

  lemma DirCopyProgress(env: Environment, t0: nat, u0: nat, t1: nat, m0: Fs, m: Fs, src: Path, dst: Path)
    requires WellFormed(m0) && CanMkdir(m0, dst) && Get(m0, src) == Some(Dir) && t0 <= u0
    requires CopyOnlyAdds(m0, m, src, dst) && Get(m, dst) == Some(Dir)
    requires CopyProgressBelow(env, u0, t1, m0, m, src, dst)
    ensures CopyProgress(env, t0, t1, m0, m, src, dst)
  {
    forall p ensures CopyProgressAt(env, t0, t1, m0, m, src, dst, p) {
      if Passes(env, t0, t1, src, dst, p) {
        if p == src {
          TopCame(env, t0, u0, t1, m0, m, src, dst);
        } else {
          assert CopyProgressAt(env, u0, t1, m0, m, src, dst, p);
          PassesWithin(env, t0, t1, u0, t1, src, dst, "", p);
        }
      }
    }
  }

  lemma TopCame(env: Environment, t0: nat, u0: nat, t1: nat, m0: Fs, m: Fs, src: Path, dst: Path)
    requires WellFormed(m0) && dst !in m0 && Get(m0, src) == Some(Dir) && t0 <= u0
    requires CopyOnlyAdds(m0, m, src, dst) && Get(m, dst) == Some(Dir)
    requires CopyProgressBelow(env, u0, t1, m0, m, src, dst) && Passes(env, t0, t1, src, dst, src)
    ensures Came(m0, m, src, dst, src)
  {
    forall q | src <= q ensures CameAt(m0, m, src, dst, q) {
      var r := Rebase(q, src, dst);
      RebaseBack(q, src, dst);
      if q == src {
        assert r == dst;
      } else if q in m0 {
        var n := q[|src|];
        ChildOnTheWay(m0, src, q);
        PassesToEntry(env, t0, t1, u0, t1, src, dst, n);
        assert CopyProgressAt(env, u0, t1, m0, m, src, dst, src + [n]);
      } else {
        AbsentAbove(m0, dst, r);
        assert AddedAt(m0, m, src, dst, r);
      }
    }
  }

  // ---------- deleting ----------

  ghost predicate DeleteProgress(env: Environment, t0: nat, t1: nat, m0: Fs, m: Fs, d: Path) {
    forall p :: DeleteProgressAt(env, t0, t1, m0, m, d, p)
  }

  /** If `p` is clear, nothing is left at or under it; the root itself always stays. */
  ghost predicate DeleteProgressAt(env: Environment, t0: nat, t1: nat, m0: Fs, m: Fs, d: Path, p: Path) {
    p in m0 && d <= p && p != [] && Clear(env, t0, t1, d, p) ==> Under(m, p) == {}
  }

  ghost predicate DeleteProgressIn(env: Environment, t0: nat, t1: nat, m0: Fs, m: Fs, d: Path, done: set<Name>) {
    forall p {:trigger DeleteProgressAt(env, t0, t1, m0, m, d, p)} ::
      Beneath(d, done, p) ==> DeleteProgressAt(env, t0, t1, m0, m, d, p)
  }

  ghost predicate DeleteProgressBelow(env: Environment, t0: nat, t1: nat, m0: Fs, m: Fs, d: Path) {
    forall p {:trigger DeleteProgressAt(env, t0, t1, m0, m, d, p)} ::
      p != d ==> DeleteProgressAt(env, t0, t1, m0, m, d, p)
  }

  lemma StillGone(mb: Fs, m: Fs, d: Path, p: Path)
    requires DeleteOnlyRemoves(mb, m, d) && Under(mb, p) == {}
    ensures Under(m, p) == {}
  {
    forall q | q in m && p <= q ensures q in Under(mb, p) {
      assert Get(m, q) == Get(mb, q);
    }
  }

  lemma DeleteProgressTurn(env: Environment, t0: nat, tb: nat, t1: nat, m0: Fs, mb: Fs, m: Fs, d: Path, done: set<Name>, n: Name)
    requires n !in done && t0 <= tb <= t1
    requires DeleteProgressIn(env, t0, tb, m0, mb, d, done)
    requires forall q :: d + [n] <= q ==> Get(mb, q) == Get(m0, q)
    requires DeleteOnlyRemoves(mb, m, d + [n]) && DeleteProgress(env, tb, t1, mb, m, d + [n])
    ensures DeleteProgressIn(env, t0, t1, m0, m, d, done + {n})
  {
    forall p | Beneath(d, done + {n}, p) ensures DeleteProgressAt(env, t0, t1, m0, m, d, p) {
      BeneathOne(d, n, p);
      if !(p in m0 && Clear(env, t0, t1, d, p)) {
      } else if d + [n] <= p {
        ClearWithin(env, t0, t1, tb, t1, d, n, p);
        assert Get(mb, p) == Get(m0, p);
        assert DeleteProgressAt(env, tb, t1, mb, m, d + [n], p);
      } else {
        ClearWithin(env, t0, t1, t0, tb, d, n, p);
        assert Beneath(d, done, p);
        assert DeleteProgressAt(env, t0, tb, m0, mb, d, p);
        StillGone(mb, m, d + [n], p);
      }
    }
  }

  lemma DeleteEntriesDone(env: Environment, t0: nat, t1: nat, m0: Fs, m: Fs, d: Path, done: set<Name>)
    requires WellFormed(m0) && DeleteProgressIn(env, t0, t1, m0, m, d, done)
    requires forall n :: ChildIn(m0, d, n) ==> n in done
    ensures DeleteProgressBelow(env, t0, t1, m0, m, d)
  {
    forall p | p != d ensures DeleteProgressAt(env, t0, t1, m0, m, d, p) {
      if p in m0 && d <= p {
        ChildOnTheWay(m0, d, p);
        assert Beneath(d, done, p);
        assert DeleteProgressAt(env, t0, t1, m0, m, d, p);
      }
    }
  }

  lemma TopCleared(env: Environment, t0: nat, u0: nat, u1: nat, t1: nat, m0: Fs, m: Fs, d: Path)
    requires DeleteOnlyRemoves(m0, m, d) && t0 <= u0 && u1 <= t1
    requires DeleteProgressBelow(env, u0, u1, m0, m, d)
    ensures Clear(env, t0, t1, d, d) ==> Childless(m, d)
  {
    if Clear(env, t0, t1, d, d) {
      forall n ensures !ChildIn(m, d, n) {
        var p := d + [n];
        ClearToEntry(env, t0, t1, u0, u1, d, n);
        assert DeleteProgressAt(env, u0, u1, m0, m, d, p);
        assert p in m ==> Get(m, p) == Get(m0, p) && p in Under(m, p);
      }
    }
  }

  lemma DeleteProgressEnds(env: Environment, t0: nat, u0: nat, u1: nat, t1: nat, m0: Fs, m: Fs, m': Fs, d: Path)
    requires t0 <= u0 && u1 <= t1
    requires DeleteProgressBelow(env, u0, u1, m0, m, d) && (m' == m || m' == m - {d})
    requires d != [] && Clear(env, t0, t1, d, d) ==> Under(m', d) == {}
    ensures DeleteProgress(env, t0, t1, m0, m', d)
  {
    forall p ensures DeleteProgressAt(env, t0, t1, m0, m', d, p) {
      if p in m0 && d <= p && p != [] && Clear(env, t0, t1, d, p) {
        if p != d {
          ClearWithin(env, t0, t1, u0, u1, d, "", p);
          assert DeleteProgressAt(env, u0, u1, m0, m, d, p);
          assert Under(m', p) <= Under(m, p);
        }
      }
    }
  }

  lemma FileDeleteProgress(env: Environment, t0: nat, t1: nat, m0: Fs, m: Fs, d: Path)
    requires d in m0 && forall p :: p in m0 && d <= p ==> p == d
    requires Clear(env, t0, t1, d, d) ==> m == Deleted(m0, d)
    ensures DeleteProgress(env, t0, t1, m0, m, d)
  {
    forall p ensures DeleteProgressAt(env, t0, t1, m0, m, d, p) {
      assert Under(Deleted(m0, d), d) == {};
    }
  }

  /** Clear at the top: no call about it is refused. */
  lemma TopClear(env: Environment, t0: nat, t1: nat, d: Path, c: Call, t: nat)
    requires t0 <= t < t1 && !c.Rename? && c.p == d
    ensures Clear(env, t0, t1, d, d) ==> !RefusedBy(env, c, t)
  {
    if Clear(env, t0, t1, d, d) {
      assert ClearAt(env, t0, t1, d, d, c, t);
    }
  }

  lemma StoppedDelete(env: Environment, t0: nat, t1: nat, m0: Fs, m: Fs, d: Path, c: Call, t: nat)
    requires t0 <= t < t1 && RefusedBy(env, c, t) && (c == Stat(d) || c == Opendir(d))
    ensures DeleteProgress(env, t0, t1, m0, m, d)
  {
    forall p ensures DeleteProgressAt(env, t0, t1, m0, m, d, p) {
      assert d <= p ==> !ClearAt(env, t0, t1, d, p, c, t);
    }
  }
}
