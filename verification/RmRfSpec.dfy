/**
 What a best-effort recursive deletion removes, in closed form, and the invariant that ties the
 explicit stack of rm_rf to it.
 */
module RmRfSpec {
  import opened Wrappers
  import opened Paths
  import opened FileSystem

  /** The scan of `root` gets as far as examining `q`. */
  ghost predicate Reached(f: Faults, root: Path, q: Path) {
    && root <= q
    && (forall i :: |root| <= i <= |q| ==> !f.lstat(q[..i]))
    && (forall i :: |root| <= i < |q| ==> !f.opendir(q[..i]))
  }

  ghost predicate CallsSucceed(f: Faults, t: Tree, r: Path)
    requires r in t
  {
    !f.lstat(r) && if t[r] == File then !f.unlink(r) else !f.opendir(r) && !f.rmdir(r)
  }

  /** A place is removed iff the scan reaches it and no call fails anywhere in its subtree. */
  ghost predicate Removed(f: Faults, t: Tree, root: Path, q: Path) {
    && q in t
    && Reached(f, root, q)
    && forall r :: r in t && q <= r ==> CallsSucceed(f, t, r)
  }

  /** The tree that is left. */
  ghost function Remaining(f: Faults, t: Tree, root: Path): Tree {
    map q | q in t && !Removed(f, t, root, q) :: t[q]
  }

  lemma {:induction false} AncestorsExist(t: Tree, q: Path, i: nat)
    requires WellFormed(t) && q in t && i <= |q|
    ensures q[..i] in t && (i < |q| ==> t[q[..i]] == Dir)
    decreases |q|
  {
    if i == |q| {
      assert q[..i] == q;
    } else if i == |q| - 1 {
      assert Parent(q) == q[..i];
    } else {
      var p := Parent(q);
      AncestorsExist(t, p, i);
      assert p[..i] == q[..i];
    }
  }

  lemma FewerLeft(a: set<Path>, b: set<Path>)
    requires a < b
    ensures |a| < |b|
  {
    var d := b - a;
    assert b == a + d && |b| == |a| + |d|;
    var x :| x in b && x !in a;
    assert x in d;
  }

  lemma FilesAreLeaves(t: Tree, q: Path, r: Path)
    requires WellFormed(t) && q in t && t[q] == File && r in t && q <= r
    ensures r == q
  {
    AncestorsExist(t, r, |q|);
    assert r[..|q|] == q;
    assert r[..|r|] == r;
  }

  lemma OnlyItself(f: Faults, t: Tree, root: Path, q: Path)
    requires WellFormed(t) && root in t && t[root] == File && q in t && q != root
    ensures !Removed(f, t, root, q)
  {
    if root <= q {
      FilesAreLeaves(t, root, q);
      assert false;
    }
  }

  // The closed form obeys the recursion of a best-effort deletion.

  lemma RemovedFile(f: Faults, t: Tree, root: Path, q: Path)
    requires WellFormed(t) && q in t && t[q] == File
    ensures Removed(f, t, root, q) <==> Reached(f, root, q) && !f.unlink(q)
  {
    assert q[..|q|] == q;
    forall r | r in t && q <= r
      ensures r == q
    {
      FilesAreLeaves(t, q, r);
    }
  }

  lemma ReachedChild(f: Faults, root: Path, p: Path, n: string)
    requires root <= p
    ensures Reached(f, root, p + [n]) <==> Reached(f, root, p) && !f.opendir(p) && !f.lstat(p + [n])
  {
    var q := p + [n];
    assert q[..|q|] == q && q[..|p|] == p;
    assert forall i :: 0 <= i <= |p| ==> q[..i] == p[..i];
    if Reached(f, root, p) && !f.opendir(p) && !f.lstat(q) {
      assert p[..|p|] == p;
      forall i | |root| <= i <= |q|
        ensures !f.lstat(q[..i])
      {
      }
      forall i | |root| <= i < |q|
        ensures !f.opendir(q[..i])
      {
      }
    }
  }

  lemma RemovedDown(f: Faults, t: Tree, root: Path, p: Path, q: Path)
    requires WellFormed(t) && Removed(f, t, root, p) && q in t && p <= q
    ensures Removed(f, t, root, q)
    decreases |q|
  {
    if |q| > |p| {
      var m := q[..|q| - 1];
      AncestorsExist(t, q, |q| - 1);
      assert p <= m;
      RemovedDown(f, t, root, p, m);
      ReachedChild(f, root, m, q[|q| - 1]);
      assert q == m + [q[|q| - 1]];
      assert CallsSucceed(f, t, m) && CallsSucceed(f, t, q);
    } else {
      assert q == p;
    }
  }

  lemma RemovedDir(f: Faults, t: Tree, root: Path, p: Path)
    requires WellFormed(t) && p in t && t[p] == Dir && Reached(f, root, p)
    ensures Removed(f, t, root, p) <==>
            && !f.opendir(p) && !f.rmdir(p)
            && forall q :: q in t && |q| == |p| + 1 && p <= q ==> Removed(f, t, root, q)
  {
    if Removed(f, t, root, p) {
      assert CallsSucceed(f, t, p);
      forall q | q in t && |q| == |p| + 1 && p <= q
        ensures Removed(f, t, root, q)
      {
        RemovedDown(f, t, root, p, q);
      }
    }
    if && !f.opendir(p) && !f.rmdir(p)
       && forall q :: q in t && |q| == |p| + 1 && p <= q ==> Removed(f, t, root, q) {
      assert p[..|p|] == p;
      forall r | r in t && p <= r
        ensures CallsSucceed(f, t, r)
      {
        if r != p {
          var q := r[..|p| + 1];
          AncestorsExist(t, r, |p| + 1);
          assert Removed(f, t, root, q) && q <= r;
        }
      }
    }
  }

  // The scan

  datatype Frame = Frame(path: string, dir: Option<seq<string>>, removal: bool)

  /** One moment of the scan; the top of the stack is its last frame. `done` are the places whose
      fate is settled, and `seen` those taken from a stream so far. */
  datatype Scan = Scan(t0: Tree, tree: Tree, stack: seq<Frame>, result: int, done: set<Path>, seen: set<Path>)

  ghost function PlaceOf(s: Scan, d: nat): Path
    requires d < |s.stack|
  {
    Resolve(s.stack[d].path)
  }

  /** The frames are a path downwards from the root of the scan. */
  ghost predicate Chain(root: Path, s: Scan) {
    forall i, j :: 0 <= i <= j < |s.stack| ==>
      |PlaceOf(s, i)| == |root| + i && root <= PlaceOf(s, i) && PlaceOf(s, i) <= PlaceOf(s, j)
  }

  ghost predicate Untouched(s: Scan, k: Path) {
    forall q :: q in s.t0 && k <= q ==> q !in s.done && q !in s.seen
  }

  ghost predicate FreshBelow(s: Scan, p: Path) {
    forall q :: q in s.t0 && p <= q ==> q !in s.done && (q == p || q !in s.seen)
  }

  ghost predicate Settled(s: Scan, k: Path) {
    forall q :: q in s.t0 && k <= q ==> q in s.done
  }

  ghost predicate IsChild(s: Scan, p: Path, k: Path) {
    k in s.t0 && |k| == |p| + 1 && p <= k
  }

  /** The unread names of an opened frame split its children: unread ones are untouched, the one in the
      next frame is under way, and all others are settled. */
  ghost predicate StreamOk(s: Scan, d: nat, names: seq<string>)
    requires d < |s.stack|
  {
    var p := PlaceOf(s, d);
    && (forall i :: 0 <= i < |names| ==> names[i] == "." || names[i] == ".." || p + [names[i]] in s.t0)
    && (forall i, j :: 0 <= i < j < |names| && p + [names[i]] in s.t0 ==> names[i] != names[j])
    && (forall k :: IsChild(s, p, k) && k[|p|] in names ==> Untouched(s, k))
    && (forall k :: IsChild(s, p, k) && k[|p|] !in names && !(d + 1 < |s.stack| && PlaceOf(s, d + 1) == k) ==>
          Settled(s, k))
    && (d + 1 < |s.stack| && |PlaceOf(s, d + 1)| > |p| ==> PlaceOf(s, d + 1)[|p|] !in names)
  }

  ghost predicate FrameOk(f: Faults, root: Path, s: Scan, d: nat)
    requires d < |s.stack|
  {
    var p, fr := PlaceOf(s, d), s.stack[d];
    && p in s.t0 && s.t0[p] == Dir && p !in s.done && Reached(f, root, p)
    && (fr.dir.None? ==> d == |s.stack| - 1 && !fr.removal && FreshBelow(s, p))
    && (fr.dir.Some? ==> !f.opendir(p) && StreamOk(s, d, fr.dir.value))
    && (fr.removal ==> d == |s.stack| - 1 && fr.dir == Some([]))
  }

  ghost predicate TreeOk(f: Faults, root: Path, s: Scan) {
    && (forall q :: q in s.tree ==> q in s.t0 && s.tree[q] == s.t0[q])
    && (forall q :: q in s.t0 && q !in s.done ==> q in s.tree)
    && (forall q :: q in s.done ==> q in s.t0 && root <= q && (q in s.tree <==> !Removed(f, s.t0, root, q)))
    && (s.result == 0 ==> forall q :: q in s.done ==> q !in s.tree)
    && (forall q, r :: q in s.done && r in s.t0 && q <= r ==> r in s.done)
    && (s.result == 0 || s.result == -1)
    && (s.result == -1 ==> !Removed(f, s.t0, root, root))
  }

  ghost predicate Inv(f: Faults, root: Path, s: Scan) {
    && WellFormed(s.t0) && root in s.t0
    && Chain(root, s)
    && (forall d :: 0 <= d < |s.stack| ==> FrameOk(f, root, s, d))
    && TreeOk(f, root, s)
    && s.seen <= s.t0.Keys
    && (s.stack == [] ==> Settled(s, root))
  }

  /** The whole scan: nothing is left to do, so the tree and the result are as specified. */
  lemma ScanEnds(f: Faults, root: Path, s: Scan)
    requires Inv(f, root, s) && s.stack == []
    ensures s.tree == Remaining(f, s.t0, root)
    ensures s.result == 0 <==> Removed(f, s.t0, root, root)
  {
    forall q | q in s.t0
      ensures q in s.tree <==> !Removed(f, s.t0, root, q)
    {
      if root <= q {
        assert q in s.done;
      }
    }
    assert root in s.done;
  }

  // Every turn of the loop keeps the invariant.

  ghost function Sub(t: Tree, k: Path): set<Path> {
    set q | q in t && k <= q
  }

  /** A frame that is not on top does not notice what happens inside the next frame's place. */
  lemma FrameKept(f: Faults, root: Path, s: Scan, s': Scan, e: nat, k: Path)
    requires Chain(root, s) && e + 1 < |s.stack| && FrameOk(f, root, s, e)
    requires s'.t0 == s.t0 && s'.done <= s.done + Sub(s.t0, k) && s.done <= s'.done && s'.seen <= s.seen + Sub(s.t0, k)
    requires PlaceOf(s, e + 1) <= k
    requires e + 1 < |s'.stack| && s'.stack[e] == s.stack[e] && s'.stack[e + 1].path == s.stack[e + 1].path
    ensures FrameOk(f, root, s', e)
  {
    hide Resolve, Reached;
    var p, next, names := PlaceOf(s, e), PlaceOf(s, e + 1), s.stack[e].dir.value;
    assert |next| == |p| + 1 && p <= next;
    forall c | IsChild(s', p, c) && c[|p|] in names
      ensures Untouched(s', c)
    {
      assert IsChild(s, p, c) && Untouched(s, c);
      forall q | q in s'.t0 && c <= q
        ensures q !in s'.done && q !in s'.seen
      {
        assert q[|p|] == c[|p|] && next[|p|] == k[|p|];
      }
    }
    forall c | IsChild(s', p, c) && c[|p|] !in names && c != next
      ensures Settled(s', c)
    {
      assert IsChild(s, p, c) && Settled(s, c);
    }
    assert p !in Sub(s.t0, k);
  }

  /** The frame below the top resumes once the top's place is settled. */
  lemma FrameResumed(f: Faults, root: Path, s: Scan, s': Scan, e: nat)
    requires Chain(root, s) && e + 2 == |s.stack| && FrameOk(f, root, s, e)
    requires s'.t0 == s.t0 && s'.done == s.done + Sub(s.t0, PlaceOf(s, e + 1)) && s'.seen == s.seen
    requires s'.stack == s.stack[..e + 1]
    ensures FrameOk(f, root, s', e)
  {
    hide Resolve, Reached;
    var p, next, names := PlaceOf(s, e), PlaceOf(s, e + 1), s.stack[e].dir.value;
    assert |next| == |p| + 1 && p <= next;
    forall c | IsChild(s', p, c) && c[|p|] in names
      ensures Untouched(s', c)
    {
      assert IsChild(s, p, c) && Untouched(s, c);
      forall q | q in s'.t0 && c <= q
        ensures q !in s'.done
      {
        assert q[|p|] == c[|p|];
      }
    }
    forall c | IsChild(s', p, c) && c[|p|] !in names
      ensures Settled(s', c)
    {
      assert IsChild(s, p, c) && (c == next || Settled(s, c));
    }
    assert p !in Sub(s.t0, next);
  }

  lemma Popped(f: Faults, root: Path, s: Scan, s': Scan)
    requires Inv(f, root, s) && s.stack != []
    requires s' == s.(stack := s.stack[..|s.stack| - 1], tree := s'.tree, result := s'.result,
                      done := s.done + Sub(s.t0, PlaceOf(s, |s.stack| - 1)))
    requires TreeOk(f, root, s')
    ensures Inv(f, root, s')
  {
    hide Resolve, Reached, StreamOk, FrameOk;
    var top := |s.stack| - 1;
    var k := PlaceOf(s, top);
    assert Chain(root, s') by {
      assert forall i :: 0 <= i < top ==> PlaceOf(s', i) == PlaceOf(s, i);
    }
    forall e | 0 <= e < top
      ensures FrameOk(f, root, s', e)
    {
      assert FrameOk(f, root, s, e);
      if e + 1 < top {
        assert PlaceOf(s, e + 1) <= k;
        FrameKept(f, root, s, s', e, k);
      } else {
        FrameResumed(f, root, s, s', e);
      }
    }
    if top == 0 {
      assert |k| == |root| && root <= k && k == root;
    }
  }

  lemma Started(f: Faults, t: Tree, path: string)
    requires WellFormed(t) && Resolve(path) in t && t[Resolve(path)] == Dir && !f.lstat(Resolve(path))
    ensures Inv(f, Resolve(path), Scan(t, t, [Frame(path, None, false)], 0, {}, {}))
  {
    hide Resolve;
    var root := Resolve(path);
    assert root[..|root|] == root;
  }

  lemma NotRemovedUp(f: Faults, t: Tree, root: Path, q: Path)
    requires WellFormed(t) && root in t && q in t && root <= q && !Removed(f, t, root, q)
    ensures !Removed(f, t, root, root)
  {
    if Removed(f, t, root, root) {
      RemovedDown(f, t, root, root, q);
    }
  }

  ghost function WithTop(s: Scan, fr: Frame): Scan
    requires s.stack != []
  {
    s.(stack := s.stack[..|s.stack| - 1] + [fr])
  }

  ghost function Top(s: Scan): Frame
    requires s.stack != []
  {
    s.stack[|s.stack| - 1]
  }

  /** A change of the top frame alone, with its path kept, leaves the frames below as they are. */
  lemma TopChanged(f: Faults, root: Path, s: Scan, fr: Frame)
    requires Inv(f, root, s) && s.stack != [] && fr.path == Top(s).path
    requires FrameOk(f, root, WithTop(s, fr), |s.stack| - 1)
    ensures Inv(f, root, WithTop(s, fr))
  {
    hide Resolve, Reached, Removed, StreamOk, FrameOk, WellFormed;
    var s', top := WithTop(s, fr), |s.stack| - 1;
    assert forall i :: 0 <= i <= top ==> PlaceOf(s', i) == PlaceOf(s, i);
    forall e | 0 <= e < top
      ensures FrameOk(f, root, s', e)
    {
      assert FrameOk(f, root, s, e) && PlaceOf(s, e + 1) <= PlaceOf(s, top);
      FrameKept(f, root, s, s', e, PlaceOf(s, top));
    }
  }

  lemma Opened(f: Faults, root: Path, s: Scan, names: seq<string>)
    requires Inv(f, root, s) && s.stack != [] && Top(s).dir.None?
    requires var p := Resolve(Top(s).path); !f.opendir(p) && Listing(s.tree, p, names)
    ensures Inv(f, root, WithTop(s, Top(s).(dir := Some(names))))
  {
    hide Resolve, Reached;
    assert FrameOk(f, root, s, |s.stack| - 1);
    OpenedStream(f, root, s, names);
    hide StreamOk, Listing, WellFormed, TreeOk, FreshBelow;
    TopChanged(f, root, s, Top(s).(dir := Some(names)));
  }

  lemma OpenedStream(f: Faults, root: Path, s: Scan, names: seq<string>)
    requires s.stack != [] && TreeOk(f, root, s)
    requires var p := Resolve(Top(s).path); FreshBelow(s, p) && Listing(s.tree, p, names)
    ensures StreamOk(WithTop(s, Top(s).(dir := Some(names))), |s.stack| - 1, names)
  {
    hide Resolve, Removed;
    var top := |s.stack| - 1;
    var p, s' := PlaceOf(s, top), WithTop(s, Top(s).(dir := Some(names)));
    assert PlaceOf(s', top) == p;
    forall k | IsChild(s', p, k)
      ensures k[|p|] in names && Untouched(s', k)
    {
      assert k in s.tree;
      assert forall q :: q in s.t0 && k <= q ==> p <= q && q != p;
    }
    forall i, j | 0 <= i < j < |names| && p + [names[i]] in s.t0
      ensures names[i] != names[j]
    {
      assert p <= p + [names[i]];
    }
  }

  lemma OpenFailed(f: Faults, root: Path, s: Scan)
    requires Inv(f, root, s) && s.stack != [] && Top(s).dir.None? && f.opendir(Resolve(Top(s).path))
    ensures var top := |s.stack| - 1;
            Inv(f, root, s.(stack := s.stack[..top], result := -1, done := s.done + Sub(s.t0, PlaceOf(s, top))))
  {
    hide Resolve;
    var top := |s.stack| - 1;
    var p := PlaceOf(s, top);
    var s' := s.(stack := s.stack[..top], result := -1, done := s.done + Sub(s.t0, p));
    assert FrameOk(f, root, s, top);
    forall q | q in s.t0 && p <= q
      ensures !Removed(f, s.t0, root, q)
    {
      assert q[..|p|] == p;
      if q == p {
        assert Removed(f, s.t0, root, q) ==> CallsSucceed(f, s.t0, q);
      }
    }
    NotRemovedUp(f, s.t0, root, p);
    assert TreeOk(f, root, s');
    Popped(f, root, s, s');
  }

  /** rmdir succeeds on a finished directory exactly when the place is to be removed. */
  lemma RmdirDecides(f: Faults, root: Path, s: Scan)
    requires Inv(f, root, s) && s.stack != [] && Top(s).removal
    ensures var p := Resolve(Top(s).path);
            && p in s.tree && s.tree[p] == Dir
            && (!f.rmdir(p) && !HasChildren(s.tree, p) <==> Removed(f, s.t0, root, p))
  {
    hide Resolve, Reached;
    var top := |s.stack| - 1;
    var p := PlaceOf(s, top);
    assert FrameOk(f, root, s, top) && StreamOk(s, top, []);
    RemovedDir(f, s.t0, root, p);
    forall k | IsChild(s, p, k)
      ensures k in s.tree <==> !Removed(f, s.t0, root, k)
    {
      assert Settled(s, k) && k in s.done;
    }
  }

  lemma Finished(f: Faults, root: Path, s: Scan, rc: int)
    requires Inv(f, root, s) && s.stack != [] && Top(s).removal
    requires rc == if Removed(f, s.t0, root, Resolve(Top(s).path)) then 0 else -1
    ensures var top := |s.stack| - 1; var p := PlaceOf(s, top);
            Inv(f, root, s.(stack := s.stack[..top], tree := if rc == 0 then s.tree - {p} else s.tree,
                            result := if rc == -1 then -1 else s.result, done := s.done + Sub(s.t0, p)))
  {
    hide Resolve, Reached, WellFormed, Removed;
    var top := |s.stack| - 1;
    var p := PlaceOf(s, top);
    var s' := s.(stack := s.stack[..top], tree := if rc == 0 then s.tree - {p} else s.tree,
                 result := if rc == -1 then -1 else s.result, done := s.done + Sub(s.t0, p));
    assert FrameOk(f, root, s, top) && StreamOk(s, top, []);
    hide TreeOk;
    forall q | q in s.t0 && p <= q && q != p
      ensures q in s.done
    {
      var k := q[..|p| + 1];
      AncestorsExist(s.t0, q, |p| + 1);
      assert IsChild(s, p, k) && Settled(s, k) && k <= q;
    }
    FinishedTree(f, root, s, p, rc, s');
    Popped(f, root, s, s');
  }

  lemma FinishedTree(f: Faults, root: Path, s: Scan, p: Path, rc: int, s': Scan)
    requires WellFormed(s.t0) && root in s.t0 && TreeOk(f, root, s)
    requires p in s.t0 && root <= p && p !in s.done && (forall q :: q in s.t0 && p <= q && q != p ==> q in s.done)
    requires rc == if Removed(f, s.t0, root, p) then 0 else -1
    requires s' == s.(stack := s'.stack, tree := if rc == 0 then s.tree - {p} else s.tree,
                      result := if rc == -1 then -1 else s.result, done := s.done + Sub(s.t0, p))
    ensures TreeOk(f, root, s')
  {
    hide Removed;
    assert s'.done == s.done + {p};
    if rc == -1 {
      NotRemovedUp(f, s.t0, root, p);
    }
  }

  lemma ChildName(t: Tree, p: Path, k: Path)
    requires WellFormed(t) && k in t && |k| == |p| + 1 && p <= k
    ensures ValidName(k[|p|]) && k == p + [k[|p|]]
  {
    assert Parent(k) == p && Last(k) == k[|p|];
  }

  lemma Skipped(f: Faults, root: Path, s: Scan)
    requires Inv(f, root, s) && s.stack != [] && Top(s).dir.Some? && Top(s).dir.value != []
    requires Top(s).dir.value[0] == "." || Top(s).dir.value[0] == ".."
    ensures Inv(f, root, WithTop(s, Top(s).(dir := Some(Top(s).dir.value[1..]))))
  {
    hide Resolve, Reached, Removed;
    var top, names := |s.stack| - 1, Top(s).dir.value;
    var p, s' := PlaceOf(s, top), WithTop(s, Top(s).(dir := Some(names[1..])));
    assert FrameOk(f, root, s, top);
    assert PlaceOf(s', top) == p;
    forall k | IsChild(s, p, k)
      ensures k[|p|] in names[1..] <==> k[|p|] in names
    {
      ChildName(s.t0, p, k);
      assert names == [names[0]] + names[1..];
    }
    assert StreamOk(s', top, names[1..]);
    TopChanged(f, root, s, Top(s).(dir := Some(names[1..])));
  }

  lemma Marked(f: Faults, root: Path, s: Scan)
    requires Inv(f, root, s) && s.stack != [] && Top(s).dir == Some([])
    ensures Inv(f, root, WithTop(s, Top(s).(removal := true)))
  {
    hide Resolve, Reached, Removed;
    var top := |s.stack| - 1;
    var s' := WithTop(s, Top(s).(removal := true));
    assert FrameOk(f, root, s, top) && StreamOk(s, top, []);
    assert PlaceOf(s', top) == PlaceOf(s, top);
    assert forall k :: IsChild(s', PlaceOf(s', top), k) ==> IsChild(s, PlaceOf(s, top), k);
    assert StreamOk(s', top, []);
    TopChanged(f, root, s, Top(s).(removal := true));
  }

  /** The first unread name, when it names a child: the child's place, and the scan with the name read. */
  ghost predicate NextChild(s: Scan, k: Path) {
    && s.stack != [] && Top(s).dir.Some? && Top(s).dir.value != []
    && var n := Top(s).dir.value[0]; n != "." && n != ".." && k == Resolve(Top(s).path) + [n]
  }

  ghost function NameRead(s: Scan): Scan
    requires s.stack != [] && Top(s).dir.Some? && Top(s).dir.value != []
  {
    WithTop(s, Top(s).(dir := Some(Top(s).dir.value[1..])))
  }

  lemma NextChildKnown(f: Faults, root: Path, s: Scan, k: Path)
    requires Inv(f, root, s) && NextChild(s, k)
    ensures k in s.t0 && k in s.tree && s.tree[k] == s.t0[k] && k !in s.seen && root <= k
    ensures var n := Top(s).dir.value[0]; ValidName(n) && IsChild(s, Resolve(Top(s).path), k)
    ensures Untouched(s, k)
    ensures Reached(f, root, k) <==> !f.lstat(k)
  {
    hide Resolve, Reached, Removed;
    var top, names := |s.stack| - 1, Top(s).dir.value;
    var p := PlaceOf(s, top);
    assert FrameOk(f, root, s, top) && StreamOk(s, top, names);
    assert names[0] in names && IsChild(s, p, k);
    ChildName(s.t0, p, k);
    ReachedChild(f, root, p, names[0]);
  }

  /** The unread names split the children as before, with `k` settled or moved to a frame of its own. */
  lemma StreamAfterRead(f: Faults, root: Path, s: Scan, k: Path, s': Scan)
    requires Inv(f, root, s) && NextChild(s, k)
    requires s'.t0 == s.t0 && s.done <= s'.done && s'.done <= s.done + Sub(s.t0, k) && s'.seen <= s.seen + Sub(s.t0, k)
    requires var top := |s.stack| - 1;
             && |s'.stack| > top && s'.stack[top].path == Top(s).path
             && (if |s'.stack| == top + 1 then Settled(s', k)
                 else |s'.stack| == top + 2 && PlaceOf(s', top + 1) == k)
    ensures StreamOk(s', |s.stack| - 1, Top(s).dir.value[1..])
  {
    hide Resolve, Reached, Removed, WellFormed, TreeOk, FreshBelow;
    var top, names := |s.stack| - 1, Top(s).dir.value;
    var p, rest := PlaceOf(s, top), names[1..];
    assert FrameOk(f, root, s, top) && StreamOk(s, top, names);
    assert names == [names[0]] + rest;
    assert names[0] !in rest by {
      assert k in s.t0;
    }
    forall c | IsChild(s', p, c) && c[|p|] in rest
      ensures Untouched(s', c)
    {
      assert IsChild(s, p, c) && Untouched(s, c);
      forall q | q in s'.t0 && c <= q
        ensures q !in s'.done && q !in s'.seen
      {
        assert q[|p|] == c[|p|] && k[|p|] == names[0];
      }
    }
    forall c | IsChild(s', p, c) && c[|p|] !in rest && c != k
      ensures Settled(s', c)
    {
      assert IsChild(s, p, c);
      assert c == p + [c[|p|]];
      assert Settled(s, c);
    }
  }

  /** The frames below the top do not notice what becomes of a child of the top's place. */
  lemma BelowKept(f: Faults, root: Path, s: Scan, k: Path, s': Scan)
    requires Inv(f, root, s) && NextChild(s, k)
    requires s'.t0 == s.t0 && s.done <= s'.done && s'.done <= s.done + Sub(s.t0, k) && s'.seen <= s.seen + Sub(s.t0, k)
    requires var top := |s.stack| - 1;
             |s'.stack| > top && s'.stack[..top] == s.stack[..top] && s'.stack[top].path == Top(s).path
    ensures forall e :: 0 <= e < |s.stack| - 1 ==> FrameOk(f, root, s', e)
  {
    hide Resolve, Sub, FrameOk, TreeOk, WellFormed, Settled;
    var top := |s.stack| - 1;
    var p := PlaceOf(s, top);
    assert p <= k;
    forall e | 0 <= e < top
      ensures FrameOk(f, root, s', e)
    {
      assert FrameOk(f, root, s, e) && PlaceOf(s, e + 1) <= p;
      assert s'.stack[..top][e] == s.stack[..top][e];
      assert e + 1 < top ==> s'.stack[..top][e + 1] == s.stack[..top][e + 1];
      FrameKept(f, root, s, s', e, k);
    }
  }

  /** A child that is not entered: its fate is settled at once. */
  lemma ChildSettled(f: Faults, root: Path, s: Scan, k: Path, s': Scan)
    requires Inv(f, root, s) && NextChild(s, k)
    requires s' == NameRead(s).(tree := s'.tree, result := s'.result, done := s.done + Sub(s.t0, k),
                                seen := s.seen + {k})
    requires TreeOk(f, root, s') && k in s.t0
    ensures Inv(f, root, s')
  {
    hide Resolve, Reached, Removed, StreamOk, WellFormed, Settled, Untouched, TreeOk;
    var top := |s.stack| - 1;
    var p := PlaceOf(s, top);
    assert forall i :: 0 <= i <= top ==> PlaceOf(s', i) == PlaceOf(s, i);
    SettledSub(s', k);
    StreamAfterRead(f, root, s, k, s');
    BelowKept(f, root, s, k, s');
    assert FrameOk(f, root, s, top) && p !in Sub(s.t0, k);
    assert FrameOk(f, root, s', top);
  }

  lemma SettledSub(s: Scan, k: Path)
    requires Sub(s.t0, k) <= s.done
    ensures Settled(s, k)
  {
    forall q | q in s.t0 && k <= q
      ensures q in s.done
    {
      assert q in Sub(s.t0, k);
    }
  }

  /** lstat fails on a child: nothing below it is touched, and the scan cannot succeed. */
  lemma LstatFailed(f: Faults, root: Path, s: Scan, k: Path)
    requires Inv(f, root, s) && NextChild(s, k) && f.lstat(k)
    ensures Inv(f, root, NameRead(s).(result := -1, done := s.done + Sub(s.t0, k), seen := s.seen + {k}))
  {
    hide Resolve, StreamOk, FrameOk, WellFormed;
    var s' := NameRead(s).(result := -1, done := s.done + Sub(s.t0, k), seen := s.seen + {k});
    NextChildKnown(f, root, s, k);
    forall q | q in s.t0 && k <= q
      ensures !Removed(f, s.t0, root, q)
    {
      assert q[..|k|] == k;
    }
    NotRemovedUp(f, s.t0, root, k);
    assert TreeOk(f, root, s');
    ChildSettled(f, root, s, k, s');
  }

  /** unlink on a child that is no directory. */
  lemma Unlinked(f: Faults, root: Path, s: Scan, k: Path, rc: int)
    requires Inv(f, root, s) && NextChild(s, k) && !f.lstat(k) && k in s.t0 && s.t0[k] == File
    requires rc == if f.unlink(k) then -1 else 0
    ensures Inv(f, root, NameRead(s).(tree := if rc == 0 then s.tree - {k} else s.tree,
                                      result := if rc == -1 then -1 else s.result,
                                      done := s.done + Sub(s.t0, k), seen := s.seen + {k}))
  {
    hide Resolve, StreamOk, FrameOk, WellFormed, Reached;
    var s' := NameRead(s).(tree := if rc == 0 then s.tree - {k} else s.tree,
                           result := if rc == -1 then -1 else s.result,
                           done := s.done + Sub(s.t0, k), seen := s.seen + {k});
    NextChildKnown(f, root, s, k);
    RemovedFile(f, s.t0, root, k);
    forall q | q in s.t0 && k <= q
      ensures q == k
    {
      FilesAreLeaves(s.t0, k, q);
    }
    assert Sub(s.t0, k) == {k};
    if rc == -1 {
      NotRemovedUp(f, s.t0, root, k);
    }
    hide Removed;
    assert TreeOk(f, root, s');
    ChildSettled(f, root, s, k, s');
  }

  /** A child directory gets a frame of its own. */
  lemma Pushed(f: Faults, root: Path, s: Scan, k: Path, path: string)
    requires Inv(f, root, s) && NextChild(s, k) && !f.lstat(k) && k in s.t0 && s.t0[k] == Dir && Resolve(path) == k
    ensures var r := NameRead(s); Inv(f, root, r.(stack := r.stack + [Frame(path, None, false)], seen := s.seen + {k}))
  {
    hide Resolve, Reached, Removed, StreamOk, WellFormed, Settled, TreeOk;
    var top := |s.stack| - 1;
    var p, r := PlaceOf(s, top), NameRead(s);
    var s' := r.(stack := r.stack + [Frame(path, None, false)], seen := s.seen + {k});
    NextChildKnown(f, root, s, k);
    assert forall i :: 0 <= i <= top ==> PlaceOf(s', i) == PlaceOf(s, i);
    StreamAfterRead(f, root, s, k, s');
    assert FrameOk(f, root, s, top) && p !in Sub(s.t0, k);
    BelowKept(f, root, s, k, s');
    assert FrameOk(f, root, s', top);
    assert FreshBelow(s', k);
    assert PlaceOf(s', top + 1) == k && FrameOk(f, root, s', top + 1);
    PushedChain(root, s, s', k);
    TreeOkSame(f, root, s, s');
  }

  lemma TreeOkSame(f: Faults, root: Path, s: Scan, s': Scan)
    requires TreeOk(f, root, s) && s'.t0 == s.t0 && s'.tree == s.tree && s'.done == s.done && s'.result == s.result
    ensures TreeOk(f, root, s')
  {
  }

  lemma PushedChain(root: Path, s: Scan, s': Scan, k: Path)
    requires Chain(root, s) && s.stack != [] && |s'.stack| == |s.stack| + 1
    requires forall i :: 0 <= i < |s.stack| ==> PlaceOf(s', i) == PlaceOf(s, i)
    requires PlaceOf(s', |s.stack|) == k && |k| == |PlaceOf(s, |s.stack| - 1)| + 1 && PlaceOf(s, |s.stack| - 1) <= k
    ensures Chain(root, s')
  {
    hide Resolve;
    forall i, j | 0 <= i <= j < |s'.stack|
      ensures |PlaceOf(s', i)| == |root| + i && root <= PlaceOf(s', i) && PlaceOf(s', i) <= PlaceOf(s', j)
    {
      if i < |s.stack| {
        assert PlaceOf(s, i) <= PlaceOf(s, |s.stack| - 1);
      }
    }
  }
}
