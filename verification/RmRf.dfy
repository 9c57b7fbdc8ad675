/**
 rm_rf of src/ocre/util/rm_rf.c: the loop over an explicit stack, with every system call and
 allocation allowed to fail.
 */
module RmRf {
  import opened Wrappers
  import opened Paths
  import opened FileSystem
  import opened RmRfSpec
  import opened RmRfRecursive

  ghost function OpenCount(stack: seq<Frame>): nat {
    if stack == [] then 0
    else OpenCount(stack[..|stack| - 1]) + if stack[|stack| - 1].dir.Some? then 1 else 0
  }

  ghost predicate NoAllocationFails(f: Faults, t: Tree, root: Path) {
    forall q :: q in t && root <= q ==> !f.build(q) && !f.push(q)
  }

  /** pop_dir: closes the stream of the top frame, if it has one. */
  method Pop(disk: Disk, stack: seq<Frame>) returns (rest: seq<Frame>)
    requires stack != [] && disk.streams >= OpenCount(stack)
    modifies disk`streams
    ensures rest == stack[..|stack| - 1]
    ensures disk.streams - OpenCount(rest) == old(disk.streams) - OpenCount(stack)
  {
    if stack[|stack| - 1].dir.Some? {
      disk.Closedir();
    }
    rest := stack[..|stack| - 1];
  }

  /** How far the top frame is: to be opened (2), being read (1), to be removed (0). */
  ghost function Phase(stack: seq<Frame>): nat {
    if stack == [] then 0 else
      var fr := stack[|stack| - 1]; if fr.removal then 0 else if fr.dir.Some? then 1 else 2
  }

  ghost function Unread(stack: seq<Frame>): nat {
    if stack == [] || stack[|stack| - 1].dir.None? then 0 else |stack[|stack| - 1].dir.value|
  }

  /** Every turn either takes a new place from a stream, or pops a frame, or advances the top frame. */
  ghost predicate Advances(s: Scan, s': Scan) {
    && s'.t0 == s.t0
    && (|| (s.seen < s'.seen <= s.t0.Keys)
        || (s'.seen == s.seen && |s'.stack| < |s.stack|)
        || (s'.seen == s.seen && |s'.stack| == |s.stack| && Phase(s'.stack) < Phase(s.stack))
        || (s'.seen == s.seen && |s'.stack| == |s.stack| && Phase(s'.stack) == Phase(s.stack)
            && Unread(s'.stack) < Unread(s.stack)))
  }

  ghost predicate Holds(f: Faults, root: Path, disk: Disk, stack: seq<Frame>, result: int, s: Scan, streams: nat)
    reads disk
  {
    && disk.tree == s.tree && stack == s.stack && result == s.result
    && disk.streams == streams + OpenCount(stack)
    && Inv(f, root, s)
  }

  /** The removal phase: rmdir, whatever its outcome, and pop. */
  method RemoveTop(disk: Disk, stack: seq<Frame>, result: int, f: Faults, ghost root: Path, ghost s: Scan,
                   ghost streams: nat)
    returns (stack': seq<Frame>, result': int, ghost s': Scan)
    requires Holds(f, root, disk, stack, result, s, streams) && stack != [] && stack[|stack| - 1].removal
    modifies disk
    ensures Holds(f, root, disk, stack', result', s', streams) && Advances(s, s')
  {
    hide Inv, Removed, Resolve, HasChildren;
    ghost var top := |stack| - 1;
    ghost var p := PlaceOf(s, top);
    RmdirDecides(f, root, s);
    result' := result;
    var rc := disk.Rmdir(stack[|stack| - 1].path, f);
    if rc == -1 {
      result' := -1;
    }
    Finished(f, root, s, rc);
    s' := s.(stack := s.stack[..top], tree := if rc == 0 then s.tree - {p} else s.tree,
             result := if rc == -1 then -1 else s.result, done := s.done + Sub(s.t0, p));
    stack' := Pop(disk, stack);
  }

  /** The first visit: opendir, or pop when it fails. */
  method OpenTop(disk: Disk, stack: seq<Frame>, f: Faults, order: Order, ghost root: Path, ghost s: Scan,
                 ghost streams: nat)
    returns (ok: bool, stack': seq<Frame>, ghost s': Scan)
    requires ValidOrder(order)
    requires Holds(f, root, disk, stack, s.result, s, streams) && stack != [] && stack[|stack| - 1].dir.None?
    modifies disk`streams
    ensures Holds(f, root, disk, stack', if ok then s.result else -1, s', streams) && Advances(s, s')
    ensures s'.t0 == s.t0
    ensures ok ==> stack' != [] && stack'[|stack'| - 1].dir.Some? && !stack'[|stack'| - 1].removal
  {
    hide Removed, Resolve, Listing, ValidOrder, StreamOk, TreeOk, Settled, FreshBelow, Reached, WellFormed;
    var top := |stack| - 1;
    ghost var p := PlaceOf(s, top);
    assert FrameOk(f, root, s, top);
    assert p in s.tree && s.tree[p] == Dir by { OnStackInTree(f, root, s, top); }
    var dir := disk.Opendir(stack[top].path, f, order);
    if dir.None? {
      OpenFailed(f, root, s);
      s' := s.(stack := s.stack[..top], result := -1, done := s.done + Sub(s.t0, p));
      stack' := Pop(disk, stack);
      ok := false;
    } else {
      Opened(f, root, s, dir.value);
      stack' := stack[..top] + [stack[top].(dir := dir)];
      s' := WithTop(s, stack[top].(dir := dir));
      assert stack'[..top] == stack[..top];
      ok := true;
    }
  }

  lemma OnStackInTree(f: Faults, root: Path, s: Scan, d: nat)
    requires Inv(f, root, s) && d < |s.stack|
    ensures PlaceOf(s, d) in s.tree && s.tree[PlaceOf(s, d)] == Dir && PlaceOf(s, d) in s.t0
  {
    hide Resolve, Removed, Reached, StreamOk;
    assert FrameOk(f, root, s, d);
  }

  lemma AdvancesTwice(a: Scan, b: Scan, c: Scan)
    requires Advances(a, b) && Advances(b, c)
    ensures Advances(a, c)
  {
  }

  lemma OpenCountTop(stack: seq<Frame>, fr: Frame)
    requires stack != [] && stack[|stack| - 1].dir.Some? && fr.dir.Some?
    ensures OpenCount(stack[..|stack| - 1] + [fr]) == OpenCount(stack)
    ensures forall g: Frame :: g.dir.None? ==> OpenCount(stack[..|stack| - 1] + [fr] + [g]) == OpenCount(stack)
  {
    var changed := stack[..|stack| - 1] + [fr];
    assert changed[..|changed| - 1] == stack[..|stack| - 1];
    forall g: Frame | g.dir.None?
      ensures OpenCount(changed + [g]) == OpenCount(stack)
    {
      assert (changed + [g])[..|changed|] == changed;
    }
  }

  /** The entry behind the first unread name, which is a child of the top's place. `stop` is a failed
      allocation, after which the loop is left. */
  method Entry(disk: Disk, stack: seq<Frame>, result: int, f: Faults, ghost root: Path, ghost s: Scan,
               ghost streams: nat)
    returns (stack': seq<Frame>, result': int, stop: bool, ghost s': Scan)
    requires Holds(f, root, disk, stack, result, s, streams) && stack != []
    requires var fr := stack[|stack| - 1];
             fr.dir.Some? && fr.dir.value != [] && fr.dir.value[0] != "." && fr.dir.value[0] != ".."
    modifies disk
    ensures !stop ==> Holds(f, root, disk, stack', result', s', streams) && Advances(s, s')
    ensures stop ==> result' == -1 && disk.tree == s.tree && disk.streams == streams + OpenCount(stack')
                     && !NoAllocationFails(f, s.t0, root)
  {
    hide Inv, Resolve, OpenCount, IsChild, Untouched, BuildPath;
    var top := |stack| - 1;
    var fr := stack[top];
    var name := fr.dir.value[0];
    ghost var k := PlaceOf(s, top) + [name];
    NextChildKnown(f, root, s, k);
    BuildPathResolves(fr.path, name);
    OpenCountTop(stack, fr.(dir := Some(fr.dir.value[1..])));
    stack' := stack[..top] + [fr.(dir := Some(fr.dir.value[1..]))];
    result', stop, s' := result, false, s;
    var entry := BuildPath(fr.path, name);
    if f.build(Resolve(entry)) {
      return stack', -1, true, s;
    }
    var st := disk.Lstat(entry, f);
    if st.None? {
      result' := -1;
      LstatFailed(f, root, s, k);
      s' := NameRead(s).(result := -1, done := s.done + Sub(s.t0, k), seen := s.seen + {k});
    } else if st.value == Dir {
      if f.push(Resolve(entry)) {
        return stack', -1, true, s;
      }
      Pushed(f, root, s, k, entry);
      stack' := stack' + [Frame(entry, None, false)];
      s' := NameRead(s).(stack := NameRead(s).stack + [Frame(entry, None, false)], seen := s.seen + {k});
    } else {
      var rc := disk.Unlink(entry, f);
      if rc == -1 {
        result' := -1;
      }
      Unlinked(f, root, s, k, rc);
      s' := NameRead(s).(tree := if rc == 0 then s.tree - {k} else s.tree, result := if rc == -1 then -1 else s.result,
                         done := s.done + Sub(s.t0, k), seen := s.seen + {k});
    }
    SeenInTree(f, root, s);
  }

  lemma SeenInTree(f: Faults, root: Path, s: Scan)
    requires Inv(f, root, s)
    ensures s.seen <= s.t0.Keys
  {
  }

  /** readdir on the top frame, and what the entry asks for. */
  method ReadTop(disk: Disk, stack: seq<Frame>, result: int, f: Faults, ghost root: Path, ghost s: Scan,
                 ghost streams: nat)
    returns (stack': seq<Frame>, result': int, stop: bool, ghost s': Scan)
    requires Holds(f, root, disk, stack, result, s, streams) && stack != []
    requires stack[|stack| - 1].dir.Some? && !stack[|stack| - 1].removal
    modifies disk
    ensures !stop ==> Holds(f, root, disk, stack', result', s', streams) && Advances(s, s')
    ensures stop ==> result' == -1 && disk.tree == s.tree && disk.streams == streams + OpenCount(stack')
                     && !NoAllocationFails(f, s.t0, root)
  {
    hide Inv, Resolve, OpenCount, NoAllocationFails;
    var top := |stack| - 1;
    var fr := stack[top];
    if fr.dir.value == [] {
      Marked(f, root, s);
      OpenCountTop(stack, fr.(removal := true));
      s' := WithTop(s, fr.(removal := true));
      stack', result', stop := stack[..top] + [fr.(removal := true)], result, false;
    } else if fr.dir.value[0] == "." || fr.dir.value[0] == ".." {
      Skipped(f, root, s);
      OpenCountTop(stack, fr.(dir := Some(fr.dir.value[1..])));
      s' := WithTop(s, fr.(dir := Some(fr.dir.value[1..])));
      stack', result', stop := stack[..top] + [fr.(dir := Some(fr.dir.value[1..]))], result, false;
    } else {
      stack', result', stop, s' := Entry(disk, stack, result, f, root, s, streams);
    }
  }

  /** One turn of the loop. */
  method Turn(disk: Disk, stack: seq<Frame>, result: int, f: Faults, order: Order, ghost root: Path, ghost s: Scan,
              ghost streams: nat)
    returns (stack': seq<Frame>, result': int, stop: bool, ghost s': Scan)
    requires ValidOrder(order)
    requires Holds(f, root, disk, stack, result, s, streams) && stack != []
    modifies disk
    ensures !stop ==> Holds(f, root, disk, stack', result', s', streams) && Advances(s, s')
    ensures stop ==> result' == -1 && Inv(f, root, s') && s'.stack != [] && s'.t0 == s.t0 && disk.tree == s'.tree
                     && disk.streams == streams + OpenCount(stack') && !NoAllocationFails(f, s.t0, root)
  {
    hide Inv, OpenCount, NoAllocationFails, Advances;
    stop := false;
    if stack[|stack| - 1].removal {
      stack', result', s' := RemoveTop(disk, stack, result, f, root, s, streams);
      return;
    }
    var cur := stack;
    ghost var s1 := s;
    if stack[|stack| - 1].dir.None? {
      var ok;
      ok, cur, s1 := OpenTop(disk, stack, f, order, root, s, streams);
      if !ok {
        stack', result', s' := cur, -1, s1;
        return;
      }
    }
    stack', result', stop, s' := ReadTop(disk, cur, result, f, root, s1, streams);
    if stop {
      s' := s1;
    } else if s1 != s {
      AdvancesTwice(s, s1, s');
    }
  }

  /** What a scan that was broken off has done to the tree. */
  lemma BrokenOff(f: Faults, root: Path, s: Scan)
    requires Inv(f, root, s) && s.stack != []
    ensures root in s.t0 && root in s.tree
    ensures forall q :: q in s.tree ==> q in s.t0 && s.tree[q] == s.t0[q]
    ensures forall q :: q in s.t0 && q !in s.tree ==> Removed(f, s.t0, root, q)
    ensures WellFormed(s.tree)
  {
    hide Resolve, Reached, StreamOk, Removed;
    OnStackInTree(f, root, s, 0);
    assert PlaceOf(s, 0) == root;
    assert FrameOk(f, root, s, 0);
    StillWellFormed(f, root, s);
  }

  lemma StillWellFormed(f: Faults, root: Path, s: Scan)
    requires WellFormed(s.t0) && TreeOk(f, root, s)
    ensures WellFormed(s.tree)
  {
    hide Reached, CallsSucceed, Removed;
    forall q | q in s.tree && |q| > 0
      ensures Parent(q) in s.tree && s.tree[Parent(q)] == Dir && ValidName(Last(q))
    {
      var p := Parent(q);
      assert p in s.t0 && p <= q;
      if p !in s.tree {
        assert p in s.done && q in s.done;
        RemovedDown(f, s.t0, root, p, q);
        assert false;
      }
    }
  }

  lemma NothingReached(f: Faults, t: Tree, root: Path)
    requires WellFormed(t) && (root !in t || f.lstat(root))
    ensures forall q :: !Removed(f, t, root, q)
    ensures Remaining(f, t, root) == t
  {
    forall q
      ensures !Removed(f, t, root, q)
    {
      if q in t && root <= q {
        AncestorsExist(t, q, |root|);
        assert q[..|root|] == root;
      }
    }
  }

  lemma RootAllocation(f: Faults, t: Tree, root: Path)
    requires root in t && f.push(root)
    ensures !NoAllocationFails(f, t, root)
  {
    assert root <= root;
  }

  lemma OpenCountStart(path: string)
    ensures OpenCount([Frame(path, None, false)]) == 0
  {
    var stack := [Frame(path, None, false)];
    assert stack[..0] == [];
  }

  lemma ScanEndsWell(f: Faults, root: Path, s: Scan)
    requires Inv(f, root, s) && s.stack == []
    ensures root in s.t0 && (s.result == 0 <==> root !in s.tree) && (s.result == 0 || s.result == -1)
    ensures forall q :: q in s.tree ==> q in s.t0 && s.tree[q] == s.t0[q]
    ensures forall q :: q in s.t0 && q !in s.tree ==> Removed(f, s.t0, root, q)
    ensures WellFormed(s.tree)
  {
    hide Removed;
    StillWellFormed(f, root, s);
    assert root in s.done;
  }

  /** The main loop; left early, with `stop`, when an allocation fails. */
  method Loop(disk: Disk, stack0: seq<Frame>, f: Faults, order: Order, ghost root: Path, ghost s0: Scan,
              ghost streams: nat)
    returns (stack: seq<Frame>, result: int, stop: bool, ghost s: Scan)
    requires ValidOrder(order) && Holds(f, root, disk, stack0, 0, s0, streams)
    modifies disk
    ensures s.t0 == s0.t0 && Inv(f, root, s) && disk.tree == s.tree && disk.streams == streams + OpenCount(stack)
    ensures !stop ==> stack == [] && s.stack == [] && result == s.result
    ensures stop ==> result == -1 && s.stack != [] && !NoAllocationFails(f, s0.t0, root)
  {
    hide Inv, OpenCount, NoAllocationFails, ValidOrder;
    stack, result, stop, s := stack0, 0, false, s0;
    while stack != []
      invariant Holds(f, root, disk, stack, result, s, streams) && s.t0 == s0.t0
      decreases |s.t0.Keys - s.seen|, |stack|, Phase(stack), Unread(stack)
    {
      ghost var before := s;
      stack, result, stop, s := Turn(disk, stack, result, f, order, root, s, streams);
      if stop {
        return;
      }
      if before.seen < s.seen {
        assert s.t0.Keys - s.seen < s.t0.Keys - before.seen by {
          var k :| k in s.seen && k !in before.seen;
          assert k in s.t0.Keys - before.seen;
        }
        FewerLeft(s.t0.Keys - s.seen, s.t0.Keys - before.seen);
      }
    }
  }

  /** The frames a broken-off loop leaves behind. */
  method Cleanup(disk: Disk, stack0: seq<Frame>, ghost streams: nat)
    requires disk.streams == streams + OpenCount(stack0)
    modifies disk`streams
    ensures disk.streams == streams
  {
    var stack := stack0;
    while stack != []
      invariant disk.streams == streams + OpenCount(stack)
    {
      stack := Pop(disk, stack);
    }
  }

  /** A place that is no directory is unlinked. */
  method UnlinkRoot(disk: Disk, path: string, f: Faults) returns (ret: int)
    requires WellFormed(disk.tree) && Resolve(path) in disk.tree && disk.tree[Resolve(path)] == File
             && !f.lstat(Resolve(path))
    modifies disk`tree
    ensures WellFormed(disk.tree) && (ret == 0 || ret == -1)
    ensures var root, t := Resolve(path), old(disk.tree);
            && (forall q :: q in disk.tree ==> q in t && disk.tree[q] == t[q])
            && (forall q :: q in t && q !in disk.tree ==> Removed(f, t, root, q))
            && (ret == 0 <==> root !in disk.tree)
            && disk.tree == Remaining(f, t, root)
  {
    hide Resolve, Removed;
    ghost var root, t := Resolve(path), disk.tree;
    assert Reached(f, root, root) by { assert root[..|root|] == root; }
    RemovedFile(f, t, root, root);
    forall q | q in t && q != root
      ensures !Removed(f, t, root, q)
    {
      OnlyItself(f, t, root, q);
    }
    ret := disk.Unlink(path, f);
    forall q | q in disk.tree && |q| > 0
      ensures Parent(q) in disk.tree && disk.tree[Parent(q)] == Dir && ValidName(Last(q))
    {
      assert t[Parent(q)] == Dir;
    }
  }

  /** rm_rf. A NULL path is `None`. Whatever fails, every stream is closed again, only places that a
      recursive deletion would remove are gone, and the result is 0 exactly when the place is gone. When
      no allocation fails, the tree and the result are exactly those of the recursive deletion. */
  method RmRf(disk: Disk, path: Option<string>, f: Faults, order: Order) returns (ret: int)
    requires ValidOrder(order) && WellFormed(disk.tree)
    modifies disk
    ensures disk.streams == old(disk.streams) && WellFormed(disk.tree)
    ensures path.None? ==> ret == -1 && disk.tree == old(disk.tree)
    ensures ret == 0 || ret == -1
    ensures path.Some? ==> var root, t := Resolve(path.value), old(disk.tree);
            && (forall q :: q in disk.tree ==> q in t && disk.tree[q] == t[q])
            && (forall q :: q in t && q !in disk.tree ==> Removed(f, t, root, q))
            && (ret == 0 <==> root in t && root !in disk.tree)
            && (root !in t ==> ret == -1)
            && (root in t && NoAllocationFails(f, t, root) ==>
                  var d := DeleteTree(f, t, root); disk.tree == t - d.removed && ret == (if d.ok then 0 else -1))
            && (NoAllocationFails(f, t, root) ==> disk.tree == Remaining(f, t, root))
  {
    hide Inv, DeleteTree, OpenCount, NoAllocationFails, WellFormed, Removed, Resolve, ValidOrder, Advances;
    if path.None? {
      return -1;
    }
    ghost var root, t := Resolve(path.value), disk.tree;
    if root in t {
      RemainingIsRecursive(f, t, root);
    }
    var st := disk.Lstat(path.value, f);
    if st.None? {
      NothingReached(f, t, root);
      return -1;
    }
    if st.value != Dir {
      ret := UnlinkRoot(disk, path.value, f);
      return;
    }
    if f.push(Resolve(path.value)) {
      RootAllocation(f, t, root);
      return -1;
    }
    Started(f, t, path.value);
    var stack, result, stop := [Frame(path.value, None, false)], 0, false;
    ghost var s := Scan(t, t, stack, 0, {}, {});
    OpenCountStart(path.value);
    stack, result, stop, s := Loop(disk, stack, f, order, root, s, old(disk.streams));
    ret := result;
    Cleanup(disk, stack, old(disk.streams));
    if stop {
      BrokenOff(f, root, s);
    } else {
      ScanEnds(f, root, s);
      ScanEndsWell(f, root, s);
    }
  }
}
