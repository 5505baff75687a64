/** Absolute, resolved paths as sequences of names, and the value of a whole file system:
    a map from paths to nodes.  Everything here is about values; the operations that
    change a file system in place are in FileEngine.dfy. */
module Paths {
  import opened Basics

  type Name = string
  type Path = seq<Name>

  datatype Node = File(content: seq<Byte>) | Dir

  type Fs = map<Path, Node>

  function Get(m: Fs, p: Path): Option<Node> {
    if p in m then Some(m[p]) else None
  }

  predicate Legal(n: Name) {
    n != "." && n != ".."
  }

  predicate LegalPath(p: Path) {
    forall i :: 0 <= i < |p| ==> Legal(p[i])
  }

  function Parent(p: Path): Path
    requires p != []
  {
    p[..|p| - 1]
  }

  /** `p` can be created as far as its parent is concerned. */
  predicate HasParentDir(m: Fs, p: Path) {
    p != [] && Get(m, Parent(p)) == Some(Dir)
  }

  /** A file system has a root directory, every other path hangs off a directory, and no
      entry is called "." or "..". */
  ghost predicate WellFormed(m: Fs) {
    && Get(m, []) == Some(Dir)
    && (forall p {:trigger HasParentDir(m, p)} :: p in m && p != [] ==> HasParentDir(m, p))
    && (forall p {:trigger LegalPath(p)} :: p in m ==> LegalPath(p))
  }

  ghost function Under(m: Fs, d: Path): set<Path> {
    set p | p in m && d <= p
  }

  ghost predicate ChildIn(m: Fs, d: Path, n: Name) {
    d + [n] in m
  }

  ghost predicate Childless(m: Fs, d: Path) {
    forall n :: !ChildIn(m, d, n)
  }

  /** `p` lies under one of the children of `d` named in `names`. */
  predicate Beneath(d: Path, names: set<Name>, p: Path) {
    d <= p && |d| < |p| && p[|d|] in names
  }

  /** The path that stands to `to` as `p` stands to `from`. */
  function Rebase(p: Path, from: Path, to: Path): Path
    requires from <= p
  {
    to + p[|from|..]
  }

  // ---------- what the operations are meant to compute ----------

  /** `m` without the subtree at `d`. */
  function Deleted(m: Fs, d: Path): Fs {
    map p | p in m && !(d <= p) :: m[p]
  }

  /** The subtree of `m` at `src`, hung at `dst`. */
  function Graft(m: Fs, src: Path, dst: Path): Fs {
    var keys := set p | p in m && src <= p :: Rebase(p, src, dst);
    map q | q in keys && dst <= q && Rebase(q, dst, src) in m :: m[Rebase(q, dst, src)]
  }

  function Copied(m: Fs, src: Path, dst: Path): Fs {
    m + Graft(m, src, dst)
  }

  function Relocated(m: Fs, src: Path, dst: Path): Fs {
    Deleted(m, src) + Graft(m, src, dst)
  }

  // ---------- path algebra ----------

  lemma RebaseBack(p: Path, from: Path, to: Path)
    requires from <= p
    ensures to <= Rebase(p, from, to)
    ensures Rebase(Rebase(p, from, to), to, from) == p
  {
    assert Rebase(p, from, to)[|to|..] == p[|from|..];
  }

  lemma RebaseThroughChild(p: Path, src: Path, dst: Path, n: Name)
    requires src + [n] <= p
    ensures src <= p
    ensures Rebase(p, src + [n], dst + [n]) == Rebase(p, src, dst)
    ensures dst + [n] <= Rebase(p, src, dst)
  {
    assert p[|src|] == (src + [n])[|src|] == n;
    assert p[|src|..] == [n] + p[|src| + 1..];
    assert Rebase(p, src, dst) == dst + ([n] + p[|src| + 1..]);
  }

  lemma BeneathOne(d: Path, n: Name, p: Path)
    ensures Beneath(d, {n}, p) <==> d + [n] <= p
  {
    if d + [n] <= p {
      assert p[|d|] == (d + [n])[|d|];
      assert forall i :: 0 <= i < |d| ==> p[i] == (d + [n])[i];
    }
  }

  lemma PrefixTrichotomy(a: Path, b: Path, p: Path)
    requires a <= p && b <= p
    ensures a <= b || b <= a
  {
    if |a| <= |b| {
      assert forall i :: 0 <= i < |a| ==> a[i] == p[i] == b[i];
    } else {
      assert forall i :: 0 <= i < |b| ==> a[i] == p[i] == b[i];
    }
  }

  /** Every proper ancestor of an existing path is an existing directory. */
  lemma {:induction false} AncestorIsDir(m: Fs, q: Path, p: Path)
    requires WellFormed(m) && p in m && q <= p && q != p
    ensures Get(m, q) == Some(Dir)
    decreases |p|
  {
    var up := Parent(p);
    assert HasParentDir(m, p);
    assert q <= up;
    if q != up {
      AncestorIsDir(m, q, up);
    }
  }

  lemma AbsentAbove(m: Fs, q: Path, p: Path)
    requires WellFormed(m) && q !in m && q <= p
    ensures p !in m
  {
    if p in m {
      AncestorIsDir(m, q, p);
    }
  }

  lemma ChildOnTheWay(m: Fs, d: Path, p: Path)
    requires WellFormed(m) && p in m && d <= p && d != p
    ensures d + [p[|d|]] <= p && ChildIn(m, d, p[|d|])
  {
    var c := d + [p[|d|]];
    assert c <= p;
    if c != p {
      AncestorIsDir(m, c, p);
    }
  }

  lemma ChildlessIsAlone(m: Fs, d: Path)
    requires WellFormed(m) && Childless(m, d)
    ensures forall p :: p in m && d <= p ==> p == d
  {
    forall p | p in m && d <= p && p != d ensures false {
      ChildOnTheWay(m, d, p);
    }
  }

  // ---------- lookups in the derived file systems ----------

  lemma GraftAt(m: Fs, src: Path, dst: Path, q: Path)
    ensures q in Graft(m, src, dst) <==> dst <= q && Rebase(q, dst, src) in m
    ensures q in Graft(m, src, dst) ==> Graft(m, src, dst)[q] == m[Rebase(q, dst, src)]
  {
    if dst <= q && Rebase(q, dst, src) in m {
      var p := Rebase(q, dst, src);
      RebaseBack(q, dst, src);
      assert src <= p && Rebase(p, src, dst) == q;
      assert q in set p | p in m && src <= p :: Rebase(p, src, dst);
    }
  }

  lemma CopiedAt(m: Fs, src: Path, dst: Path, q: Path)
    ensures Get(Copied(m, src, dst), q) ==
            if dst <= q && Rebase(q, dst, src) in m then Get(m, Rebase(q, dst, src)) else Get(m, q)
  {
    GraftAt(m, src, dst, q);
  }

  lemma RelocatedAt(m: Fs, src: Path, dst: Path, q: Path)
    ensures Get(Relocated(m, src, dst), q) ==
            if dst <= q && Rebase(q, dst, src) in m then Get(m, Rebase(q, dst, src))
            else if src <= q then None else Get(m, q)
  {
    GraftAt(m, src, dst, q);
  }

  /** File systems that answer every lookup alike are equal. */
  lemma SameLookups(a: Fs, b: Fs)
    requires forall p :: Get(a, p) == Get(b, p)
    ensures a == b
  {
    forall p ensures p in a <==> p in b {
      assert Get(a, p) == Get(b, p);
    }
    assert a.Keys == b.Keys;
    forall p | p in a ensures a[p] == b[p] {
      assert Get(a, p) == Get(b, p);
    }
  }

  // ---------- laws ----------

  /** Moving is copying and then deleting the original. */
  lemma MoveIsCopyThenDelete(m: Fs, src: Path, dst: Path)
    requires !(src <= dst) && !(dst <= src)
    ensures Relocated(m, src, dst) == Deleted(Copied(m, src, dst), src)
  {
    forall p ensures Get(Relocated(m, src, dst), p) == Get(Deleted(Copied(m, src, dst), src), p) {
      RelocatedAt(m, src, dst, p);
      CopiedAt(m, src, dst, p);
      if src <= p && dst <= p {
        PrefixTrichotomy(src, dst, p);
      }
    }
    SameLookups(Relocated(m, src, dst), Deleted(Copied(m, src, dst), src));
  }

  /** Deleting a fresh copy gives back the file system it was made in. */
  lemma DeleteUndoesCopy(m: Fs, src: Path, dst: Path)
    requires WellFormed(m) && dst !in m
    ensures Deleted(Copied(m, src, dst), dst) == m
  {
    forall p ensures Get(Deleted(Copied(m, src, dst), dst), p) == Get(m, p) {
      CopiedAt(m, src, dst, p);
      if dst <= p {
        AbsentAbove(m, dst, p);
      }
    }
    SameLookups(Deleted(Copied(m, src, dst), dst), m);
  }

  /** Moving a tree to a free place and back changes nothing. */
  lemma MoveBackIsIdentity(m: Fs, src: Path, dst: Path)
    requires WellFormed(m) && dst !in m && !(src <= dst) && !(dst <= src)
    ensures Relocated(Relocated(m, src, dst), dst, src) == m
  {
    var there := Relocated(m, src, dst);
    forall p ensures Get(Relocated(there, dst, src), p) == Get(m, p) {
      RelocatedAt(there, dst, src, p);
      RelocatedAt(m, src, dst, p);
      if dst <= p {
        AbsentAbove(m, dst, p);
      }
      if src <= p {
        RelocatedAt(m, src, dst, Rebase(p, src, dst));
        RebaseBack(p, src, dst);
        if Rebase(p, src, dst) in m {
          AbsentAbove(m, dst, Rebase(p, src, dst));
        }
      }
    }
    SameLookups(Relocated(there, dst, src), m);
  }
}
