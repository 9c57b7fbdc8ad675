/**
 Where containers keep their files: the working directories that src/ocre/context.c makes and removes,
 as places in the tree.
 */
module Workdirs {
  import opened Paths
  import opened FileSystem
  import opened RmRfSpec
  import opened RmRfRecursive
  import opened RmRf
  import opened Names

  /** "%s/containers/%s" */
  function Workdir(base: string, id: string): string {
    base + "/containers/" + id
  }

  ghost function Place(base: string, id: string): Path {
    Resolve(base) + ["containers", id]
  }

  /** A valid id stays below containers/, in a directory of its own name, whatever the base looks like. */
  lemma WorkdirNamesPlace(base: string, id: string)
    requires ValidId(id)
    ensures Resolve(Workdir(base, id)) == Place(base, id)
  {
    hide ValidName, ValidId, Resolve, Workdir, BuildPath;
    ValidIdIsComponent(id);
    WorkdirIsBuilt(base, id);
    BuildPathResolves(base, "containers");
    BuildPathResolves(BuildPath(base, "containers"), id);
  }

  lemma WorkdirIsBuilt(base: string, id: string)
    ensures Workdir(base, id) == BuildPath(BuildPath(base, "containers"), id)
    ensures ValidName("containers")
  {
    var slash, name := ['/'], "containers";
    assert "/containers/" == slash + name + slash;
  }

  ghost predicate SameAt(t: Tree, t': Tree, q: Path) {
    (q in t <==> q in t') && (q in t ==> t[q] == t'[q])
  }

  ghost predicate ChangedOnlyUnder(p: Path, t: Tree, t': Tree) {
    forall q :: !(p <= q) ==> SameAt(t, t', q)
  }

  ghost predicate SameUnder(p: Path, t: Tree, t': Tree) {
    forall q :: p <= q ==> SameAt(t, t', q)
  }

  lemma ChangedTwice(p: Path, a: Tree, b: Tree, c: Tree)
    requires ChangedOnlyUnder(p, a, b) && ChangedOnlyUnder(p, b, c)
    ensures ChangedOnlyUnder(p, a, c)
  {
    forall q | !(p <= q)
      ensures SameAt(a, c, q)
    {
      assert SameAt(a, b, q) && SameAt(b, c, q);
    }
  }

  /** The directories of two ids have no place in common. */
  lemma PlacesDisjoint(base: string, a: string, b: string, q: Path)
    requires a != b && Place(base, a) <= q
    ensures !(Place(base, b) <= q)
  {
    assert q[|Resolve(base)| + 1] == a;
  }

  /** What happens in the directory of one id leaves the directory of every other alone. */
  lemma Isolation(base: string, a: string, b: string, t: Tree, t': Tree)
    requires a != b && ChangedOnlyUnder(Place(base, a), t, t')
    ensures SameUnder(Place(base, b), t, t')
  {
    forall q | Place(base, b) <= q
      ensures SameAt(t, t', q)
    {
      PlacesDisjoint(base, b, a, q);
    }
  }

  /** mkdir succeeds. */
  ghost predicate CanMkdir(t: Tree, p: Path, fault: bool) {
    !fault && p !in t && |p| > 0 && Parent(p) in t && t[Parent(p)] == Dir
  }

  ghost function AfterMkdir(t: Tree, p: Path, fault: bool): Tree {
    if CanMkdir(t, p, fault) then t[p := Dir] else t
  }

  lemma MkdirChangesOnly(t: Tree, p: Path, fault: bool)
    ensures ChangedOnlyUnder(p, t, AfterMkdir(t, p, fault))
  {
    assert p <= p;
  }

  lemma MkdirWellFormed(t: Tree, p: Path)
    requires WellFormed(t) && CanMkdir(t, p, false) && ValidName(Last(p))
    ensures WellFormed(t[p := Dir])
  {
    forall q | q in t[p := Dir] && |q| > 0
      ensures Parent(q) in t[p := Dir] && t[p := Dir][Parent(q)] == Dir && ValidName(Last(q))
    {
    }
  }

  ghost predicate NoFaultUnder(f: Faults, p: Path) {
    forall q :: p <= q ==> !f.lstat(q) && !f.opendir(q) && !f.unlink(q) && !f.rmdir(q)
  }

  lemma EmptyBelow(t: Tree, p: Path, q: Path)
    requires WellFormed(t) && p !in t && p <= q
    ensures q !in t
  {
    assert q[..|p|] == p;
    if q in t {
      AncestorsExist(t, q, |p|);
    }
  }

  /** When nothing below `p` fails, rm_rf removes exactly the subtree of `p`. */
  lemma NoFaultRemovesSubtree(f: Faults, t: Tree, p: Path, q: Path)
    requires NoFaultUnder(f, p) && q in t
    ensures Removed(f, t, p, q) <==> p <= q
  {
    if p <= q {
      assert forall i :: |p| <= i <= |q| ==> p <= q[..i];
      forall r | r in t && q <= r
        ensures CallsSucceed(f, t, r)
      {
        assert p <= r;
      }
    }
  }

  // The rollback of a failed create: mkdir, perhaps failing, then rm_rf on the same path

  /** With no fault in rm_rf the rollback leaves exactly what is outside the place. It restores the tree iff there
      was nothing at the place: a directory that was there already is deleted with all it holds, although
      mkdir refused because of it. */
  lemma RollbackWithoutFaults(f: Faults, t: Tree, p: Path, fault: bool)
    requires WellFormed(t) && NoFaultUnder(f, p)
    ensures Remaining(f, AfterMkdir(t, p, fault), p) == t <==> p !in t
    ensures forall q :: q in Remaining(f, AfterMkdir(t, p, fault), p) <==> q in t && !(p <= q)
  {
    var t1 := AfterMkdir(t, p, fault);
    var r := Remaining(f, t1, p);
    forall q
      ensures q in r <==> q in t && !(p <= q)
    {
      if q in t1 {
        NoFaultRemovesSubtree(f, t1, p, q);
      }
    }
    if p !in t {
      forall q | q in t
        ensures q in r
      {
        if p <= q {
          EmptyBelow(t, p, q);
        }
      }
      assert r.Keys == t.Keys;
    }
  }

  /** A file, or a directory with nothing in it. */
  ghost predicate Leaf(t: Tree, q: Path) {
    q in t && Children(t, q) == {}
  }

  lemma LeafIsAlone(t: Tree, q: Path, r: Path)
    requires WellFormed(t) && Leaf(t, q) && r in t && q <= r
    ensures r == q
  {
    if r != q {
      ChildToward(t, q, r);
    }
  }

  lemma ChildToward(t: Tree, q: Path, r: Path)
    requires WellFormed(t) && r in t && q < r
    ensures r[..|q| + 1] in Children(t, q)
  {
    AncestorsExist(t, r, |q| + 1);
  }

  lemma LeafRemoved(f: Faults, t: Tree, p: Path, q: Path)
    requires WellFormed(t) && Leaf(t, q)
    ensures Removed(f, t, p, q) <==> Reached(f, p, q) && CallsSucceed(f, t, q)
  {
    forall r | r in t && q <= r
      ensures r == q
    {
      LeafIsAlone(t, q, r);
    }
  }

  lemma {:induction false} LeafBelow(t: Tree, q: Path) returns (leaf: Path)
    requires q in t
    ensures Leaf(t, leaf) && q <= leaf
    decreases |Sub(t, q)|
  {
    if Children(t, q) == {} {
      leaf := q;
    } else {
      var c :| c in Children(t, q);
      SmallerBelow(t, q, c);
      leaf := LeafBelow(t, c);
    }
  }

  /** No leaf below `p` can be deleted: each is out of reach, or one of its own calls fails. */
  ghost predicate NothingDeletable(f: Faults, t: Tree, p: Path) {
    forall q :: Leaf(t, q) && p <= q ==> !(Reached(f, p, q) && CallsSucceed(f, t, q))
  }

  lemma NothingRemovedIff(f: Faults, t: Tree, p: Path)
    requires WellFormed(t)
    ensures (forall q :: !Removed(f, t, p, q)) <==> NothingDeletable(f, t, p)
  {
    hide WellFormed;
    if NothingDeletable(f, t, p) {
      forall q
        ensures !Removed(f, t, p, q)
      {
        if Removed(f, t, p, q) {
          var leaf := LeafBelow(t, q);
          RemovedDown(f, t, p, q, leaf);
          LeafRemoved(f, t, p, leaf);
        }
      }
    } else {
      var q :| Leaf(t, q) && p <= q && Reached(f, p, q) && CallsSucceed(f, t, q);
      LeafRemoved(f, t, p, q);
    }
  }

  lemma RemainingAll(f: Faults, t: Tree, p: Path)
    ensures Remaining(f, t, p) == t <==> forall q :: !Removed(f, t, p, q)
  {
    if Remaining(f, t, p) == t {
      forall q
        ensures !Removed(f, t, p, q)
      {
        assert q in t ==> q in Remaining(f, t, p);
      }
    }
  }

  lemma NewDirRemaining(f: Faults, t: Tree, p: Path)
    requires WellFormed(t) && CanMkdir(t, p, false) && ValidName(Last(p))
    ensures Remaining(f, t[p := Dir], p) == t <==> !f.lstat(p) && !f.opendir(p) && !f.rmdir(p)
  {
    var t1 := t[p := Dir];
    MkdirWellFormed(t, p);
    forall q | q in t1 && p <= q
      ensures q == p
    {
      if q in t {
        EmptyBelow(t, p, q);
      }
    }
    assert Leaf(t1, p);
    LeafRemoved(f, t1, p, p);
    assert p[..|p|] == p;
    assert Reached(f, p, p) <==> !f.lstat(p);
    var r := Remaining(f, t1, p);
    assert forall q :: q in t ==> q in r && r[q] == t[q];
    assert p in r <==> !Removed(f, t1, p, p);
  }

  /** Exactly when the rollback restores the tree, whatever fails in rm_rf. A directory that was there survives
      whole iff nothing in it can be deleted; one that mkdir made goes iff the three calls on it succeed; and with
      no directory at all there is nothing to restore. */
  lemma RollbackExact(f: Faults, t: Tree, p: Path, fault: bool)
    requires WellFormed(t) && |p| > 0 && ValidName(Last(p))
    ensures Remaining(f, AfterMkdir(t, p, fault), p) == t <==>
            if p in t then NothingDeletable(f, t, p)
            else CanMkdir(t, p, fault) ==> !f.lstat(p) && !f.opendir(p) && !f.rmdir(p)
  {
    hide Remaining, WellFormed, Removed, NothingDeletable;
    if CanMkdir(t, p, fault) {
      NewDirRemaining(f, t, p);
    } else {
      RemainingAll(f, t, p);
      NothingRemovedIff(f, t, p);
      if p !in t {
        forall q
          ensures !Removed(f, t, p, q)
        {
          NothingThere(f, t, p, q);
        }
      }
    }
  }

  lemma NothingThere(f: Faults, t: Tree, p: Path, q: Path)
    requires WellFormed(t) && p !in t
    ensures !Removed(f, t, p, q)
  {
    if p <= q {
      EmptyBelow(t, p, q);
    }
  }

  // Two failing inputs

  const DATA_PLACE: Path := ["containers", "a"]

  /** The directory of container "a", at the root, with one file in it. */
  const WITH_DATA: Tree := map[[] := Dir, ["containers"] := Dir, ["containers", "a"] := Dir,
                               ["containers", "a", "data"] := File]

  const NO_FAULTS: Faults := Faults(_ => false, _ => false, _ => false, _ => false, _ => false, _ => false)

  const RMDIR_FAILS: Faults := NO_FAULTS.(rmdir := q => q == DATA_PLACE)

  lemma WithDataWellFormed()
    ensures WellFormed(WITH_DATA)
    ensures Place("", "a") == DATA_PLACE
  {
    assert Split("") == [""];
    assert [""][..0] == [];
    assert Parent(["containers"]) == [] && Parent(DATA_PLACE) == ["containers"];
    assert Parent(["containers", "a", "data"]) == DATA_PLACE;
    assert ValidName("containers") && ValidName("a") && ValidName("data");
  }

  /** The directory is there before mkdir: the create fails, and its rollback deletes the file in it. */
  lemma RollbackDeletesOldDirectory()
    ensures !CanMkdir(WITH_DATA, DATA_PLACE, false)
    ensures ["containers", "a", "data"] in WITH_DATA
    ensures ["containers", "a", "data"] !in Remaining(NO_FAULTS, AfterMkdir(WITH_DATA, DATA_PLACE, false), DATA_PLACE)
  {
    WithDataWellFormed();
    RollbackWithoutFaults(NO_FAULTS, WITH_DATA, DATA_PLACE, false);
  }

  /** One rmdir that fails is enough for a removal to leave the directory. */
  lemma RmdirFailsHere()
    ensures DATA_PLACE in Remaining(RMDIR_FAILS, WITH_DATA, DATA_PLACE)
    ensures NoAllocationFails(RMDIR_FAILS, WITH_DATA, DATA_PLACE)
  {
    assert !CallsSucceed(RMDIR_FAILS, WITH_DATA, DATA_PLACE);
  }
}
