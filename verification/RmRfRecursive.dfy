/** The recursive best-effort deletion that rm_rf stands for, and its closed form in `RmRfSpec`. */
module RmRfRecursive {
  import opened Paths
  import opened FileSystem
  import opened RmRfSpec

  ghost function Children(t: Tree, p: Path): set<Path> {
    set q | q in t && |q| == |p| + 1 && p <= q
  }

  lemma SmallerBelow(t: Tree, p: Path, c: Path)
    requires p in t && c in Children(t, p)
    ensures |Sub(t, c)| < |Sub(t, p)|
  {
    assert p in Sub(t, p) && p !in Sub(t, c);
    assert Sub(t, c) <= Sub(t, p);
    FewerLeft(Sub(t, c), Sub(t, p));
  }

  datatype Deletion = Deletion(removed: set<Path>, ok: bool)

  /** Delete `p`: a file by unlink; a directory by deleting each child, going on after failures, and then
      by rmdir, which fails when a child is left. */
  ghost function DeleteTree(f: Faults, t: Tree, p: Path): Deletion
    requires p in t
    decreases |Sub(t, p)|
  {
    if f.lstat(p) then Deletion({}, false)
    else if t[p] == File then (if f.unlink(p) then Deletion({}, false) else Deletion({p}, true))
    else if f.opendir(p) then Deletion({}, false)
    else
      assert forall c :: c in Children(t, p) ==> |Sub(t, c)| < |Sub(t, p)| by {
        forall c | c in Children(t, p) ensures |Sub(t, c)| < |Sub(t, p)| { SmallerBelow(t, p, c); }
      }
      var below := set c, x | c in Children(t, p) && x in DeleteTree(f, t, c).removed :: x;
      var ok := !f.rmdir(p) && forall c :: c in Children(t, p) ==> DeleteTree(f, t, c).ok;
      Deletion(if ok then below + {p} else below, ok)
  }

  lemma RemovedBelow(f: Faults, t: Tree, p: Path, c: Path, q: Path)
    requires |c| == |p| + 1 && p <= c && c <= q && !f.lstat(p) && !f.opendir(p)
    ensures Removed(f, t, p, q) <==> Removed(f, t, c, q)
  {
    assert q[..|p|] == p;
    if Reached(f, c, q) {
      forall i | |p| <= i <= |q|
        ensures !f.lstat(q[..i])
      {
      }
      forall i | |p| <= i < |q|
        ensures !f.opendir(q[..i])
      {
      }
    }
  }

  lemma NothingRemoved(f: Faults, t: Tree, p: Path, q: Path)
    requires p in t && (f.lstat(p) || (t[p] == Dir && f.opendir(p)))
    ensures !Removed(f, t, p, q)
  {
    if p <= q {
      assert q[..|p|] == p;
      if q == p {
        assert Removed(f, t, p, q) ==> CallsSucceed(f, t, q);
      }
    }
  }

  ghost predicate IsClosedForm(f: Faults, t: Tree, p: Path, d: Deletion) {
    (d.ok <==> Removed(f, t, p, p)) && forall q :: q in d.removed <==> Removed(f, t, p, q)
  }

  /** The recursion removes exactly the places of the closed form, and reports success exactly when the
      place itself is among them. */
  lemma {:induction false} RecursionIsClosedForm(f: Faults, t: Tree, p: Path)
    requires WellFormed(t) && p in t
    ensures IsClosedForm(f, t, p, DeleteTree(f, t, p))
    decreases |Sub(t, p)|
  {
    hide Removed, WellFormed;
    if f.lstat(p) || (t[p] == Dir && f.opendir(p)) {
      forall q
        ensures !Removed(f, t, p, q)
      {
        NothingRemoved(f, t, p, q);
      }
    } else if t[p] == File {
      FileCase(f, t, p);
    } else {
      forall c | c in Children(t, p)
        ensures IsClosedForm(f, t, c, DeleteTree(f, t, c))
      {
        SmallerBelow(t, p, c);
        RecursionIsClosedForm(f, t, c);
      }
      DirCase(f, t, p);
    }
  }

  lemma FileCase(f: Faults, t: Tree, p: Path)
    requires WellFormed(t) && p in t && t[p] == File && !f.lstat(p)
    ensures IsClosedForm(f, t, p, DeleteTree(f, t, p))
  {
    assert p[..|p|] == p;
    RemovedFile(f, t, p, p);
    hide Removed;
    forall q | q in t && q != p
      ensures !Removed(f, t, p, q)
    {
      OnlyItself(f, t, p, q);
    }
    assert forall q :: Removed(f, t, p, q) ==> q in t by { OnlyPlaces(f, t, p); }
  }

  lemma OnlyPlaces(f: Faults, t: Tree, p: Path)
    ensures forall q :: Removed(f, t, p, q) ==> q in t && p <= q
  {
  }

  lemma DirCase(f: Faults, t: Tree, p: Path)
    requires WellFormed(t) && p in t && t[p] == Dir && !f.lstat(p) && !f.opendir(p)
    requires forall c :: c in Children(t, p) ==> IsClosedForm(f, t, c, DeleteTree(f, t, c))
    ensures IsClosedForm(f, t, p, DeleteTree(f, t, p))
  {
    assert Reached(f, p, p) by { assert p[..|p|] == p; }
    RemovedDir(f, t, p, p);
    hide Removed, Reached;
    var d := DeleteTree(f, t, p);
    forall c | c in Children(t, p)
      ensures DeleteTree(f, t, c).ok <==> Removed(f, t, p, c)
    {
      RemovedBelow(f, t, p, c, c);
    }
    assert d.ok <==> Removed(f, t, p, p);
    forall q
      ensures q in d.removed <==> Removed(f, t, p, q)
    {
      BelowCase(f, t, p, q);
    }
  }

  lemma BelowCase(f: Faults, t: Tree, p: Path, q: Path)
    requires WellFormed(t) && p in t && t[p] == Dir && !f.lstat(p) && !f.opendir(p)
    requires forall c :: c in Children(t, p) ==> IsClosedForm(f, t, c, DeleteTree(f, t, c))
    requires DeleteTree(f, t, p).ok <==> Removed(f, t, p, p)
    ensures q in DeleteTree(f, t, p).removed <==> Removed(f, t, p, q)
  {
    hide Removed, WellFormed;
    OnlyPlaces(f, t, p);
    if q in t && p <= q && q != p {
      var c := q[..|p| + 1];
      AncestorsExist(t, q, |p| + 1);
      assert c in Children(t, p);
      RemovedBelow(f, t, p, c, q);
    }
    forall c | c in Children(t, p) && q in DeleteTree(f, t, c).removed
      ensures Removed(f, t, p, q) && q != p
    {
      OnlyPlaces(f, t, c);
      RemovedBelow(f, t, p, c, q);
    }
  }

  /** The tree that rm_rf leaves is the old one without what the recursion removes. */
  lemma RemainingIsRecursive(f: Faults, t: Tree, p: Path)
    requires WellFormed(t) && p in t
    ensures Remaining(f, t, p) == t - DeleteTree(f, t, p).removed
    ensures DeleteTree(f, t, p).ok <==> p !in Remaining(f, t, p)
  {
    hide Removed, DeleteTree;
    RecursionIsClosedForm(f, t, p);
  }
}
