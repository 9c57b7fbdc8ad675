/**
 A file system as a finite tree of places, with the calls that rm_rf and the context make on it.
 Any call may fail at any place.
 */
module FileSystem {
  import opened Wrappers
  import opened Paths

  datatype Kind = File | Dir
  type Tree = map<Path, Kind>

  /** Which calls fail where. `build` and `push` are the two allocations of rm_rf. */
  datatype Faults = Faults(lstat: Path -> bool, opendir: Path -> bool, unlink: Path -> bool, rmdir: Path -> bool,
                           build: Path -> bool, push: Path -> bool)

  function Parent(q: Path): Path
    requires |q| > 0
  {
    q[..|q| - 1]
  }

  function Last(q: Path): string
    requires |q| > 0
  {
    q[|q| - 1]
  }

  /** Every place but the root lies in a directory, under a proper name. */
  ghost predicate WellFormed(t: Tree) {
    forall q {:trigger Parent(q)} {:trigger Last(q)} :: q in t && |q| > 0 ==>
      Parent(q) in t && t[Parent(q)] == Dir && ValidName(Last(q))
  }

  predicate HasChildren(t: Tree, p: Path) {
    exists q :: q in t && |q| == |p| + 1 && p <= q
  }

  /** `names` may be read from a stream opened on `p`: every child once, and any number of dot entries. */
  ghost predicate Listing(t: Tree, p: Path, names: seq<string>) {
    && (forall i :: 0 <= i < |names| ==> names[i] == "." || names[i] == ".." || p + [names[i]] in t)
    && (forall q :: q in t && |q| == |p| + 1 && p <= q ==> q[|p|] in names)
    && (forall i, j :: 0 <= i < j < |names| && p + [names[i]] in t ==> names[i] != names[j])
  }

  /** The order in which readdir gives the entries is the file system's choice. */
  type Order = (Tree, Path) -> seq<string>

  ghost predicate ValidOrder(order: Order) {
    forall t, p :: p in t ==> Listing(t, p, order(t, p))
  }

  class Disk {
    var tree: Tree
    var streams: nat

    constructor (tree: Tree)
      ensures this.tree == tree && streams == 0
    {
      this.tree, streams := tree, 0;
    }

    method Lstat(path: string, f: Faults) returns (st: Option<Kind>)
      ensures st == if Resolve(path) in tree && !f.lstat(Resolve(path)) then Some(tree[Resolve(path)]) else None
    {
      var p := Resolve(path);
      st := if p in tree && !f.lstat(p) then Some(tree[p]) else None;
    }

    method Opendir(path: string, f: Faults, order: Order) returns (dir: Option<seq<string>>)
      requires ValidOrder(order)
      modifies this`streams
      ensures dir.Some? <==> Resolve(path) in tree && tree[Resolve(path)] == Dir && !f.opendir(Resolve(path))
      ensures dir.Some? ==> Listing(tree, Resolve(path), dir.value) && streams == old(streams) + 1
      ensures dir.None? ==> streams == old(streams)
    {
      var p := Resolve(path);
      if p in tree && tree[p] == Dir && !f.opendir(p) {
        streams := streams + 1;
        dir := Some(order(tree, p));
      } else {
        dir := None;
      }
    }

    method Closedir()
      requires streams > 0
      modifies this`streams
      ensures streams == old(streams) - 1
    {
      streams := streams - 1;
    }

    method Unlink(path: string, f: Faults) returns (rc: int)
      modifies this`tree
      ensures var p := Resolve(path);
              if p in old(tree) && old(tree)[p] == File && !f.unlink(p) then rc == 0 && tree == old(tree) - {p}
              else rc == -1 && tree == old(tree)
    {
      var p := Resolve(path);
      if p in tree && tree[p] == File && !f.unlink(p) {
        tree := tree - {p};
        rc := 0;
      } else {
        rc := -1;
      }
    }

    method Rmdir(path: string, f: Faults) returns (rc: int)
      modifies this`tree
      ensures var p := Resolve(path);
              if p in old(tree) && old(tree)[p] == Dir && !f.rmdir(p) && !HasChildren(old(tree), p)
              then rc == 0 && tree == old(tree) - {p}
              else rc == -1 && tree == old(tree)
    {
      var p := Resolve(path);
      if p in tree && tree[p] == Dir && !f.rmdir(p) && !HasChildren(tree, p) {
        tree := tree - {p};
        rc := 0;
      } else {
        rc := -1;
      }
    }

    /** mkdir fails when the place is taken or its parent is no directory, or by `fault`. */
    method Mkdir(path: string, fault: bool) returns (rc: int)
      modifies this`tree
      ensures var p := Resolve(path);
              if !fault && p !in old(tree) && |p| > 0 && Parent(p) in old(tree) && old(tree)[Parent(p)] == Dir
              then rc == 0 && tree == old(tree)[p := Dir]
              else rc == -1 && tree == old(tree)
    {
      var p := Resolve(path);
      if !fault && p !in tree && |p| > 0 && Parent(p) in tree && tree[Parent(p)] == Dir {
        tree := tree[p := Dir];
        rc := 0;
      } else {
        rc := -1;
      }
    }
  }
}
