/**
 The container registry of src/ocre/context.c as values: what a list of containers must satisfy, which id a create
 gets, and what creates, removals and teardowns do to the list and to the tree.
 */
module ContextSpec {
  import opened Wrappers
  import opened MergeSort
  import opened Utlist
  import opened ListOps
  import opened Paths
  import opened FileSystem
  import opened RmRfSpec
  import RmRf
  import opened Names
  import opened Workdirs
  import Lifecycle

  type Status = Lifecycle.Status

  /** The states in which a destroy goes through; it joins an exited thread first. */
  predicate AtRest(st: Status) {
    st.CREATED? || st.EXITED? || st.STOPPED? || st.ERROR?
  }

  /** The status behind ocre_container_wait. `after` is what a wait that sleeps finds when it wakes; only a RUNNING
      container makes it sleep. */
  function Awaited(st: Status, after: Status): Status {
    var found := if st.RUNNING? then after else st;
    if found.EXITED? then Lifecycle.STOPPED else found
  }

  /** What the registry needs of a container. */
  class Registered {
    const id: string
    var status: Status
    var signalled: bool
    var destroyed: bool

    predicate InUse()
      reads this`status
    {
      !AtRest(status)
    }

    constructor (id: string)
      ensures this.id == id && status == Lifecycle.CREATED && !signalled && !destroyed
    {
      this.id, status, signalled, destroyed := id, Lifecycle.CREATED, false, false;
    }

    /** ocre_container_kill refuses unless the container is RUNNING. */
    method Kill() returns (rc: int)
      modifies this`signalled
      ensures rc == if status.RUNNING? then 0 else -1
      ensures signalled == (old(signalled) || status.RUNNING?)
    {
      if status.RUNNING? {
        signalled := true;
        rc := 0;
      } else {
        rc := -1;
      }
    }

    /** ocre_container_wait, behind the kill. */
    method Wait(after: Status)
      requires status.RUNNING? ==> signalled
      modifies this`status
      ensures status == Awaited(old(status), after)
    {
      if status.RUNNING? {
        status := after;
      }
      if status.EXITED? {
        status := Lifecycle.STOPPED;
      }
    }

    /** A second destroy would touch freed memory. */
    method Destroy() returns (rc: int)
      requires !destroyed
      modifies this`destroyed
      ensures rc == if InUse() then -1 else 0
      ensures destroyed == !InUse()
    {
      if !AtRest(status) {
        return -1;
      }
      destroyed := true;
      rc := 0;
    }
  }

  /** These are the steps of the lifecycle: a kill changes no field, a wait that does not sleep or that wakes up leaves
      the awaited status, and a destroy succeeds exactly at rest. */
  lemma AwaitedIsLifecycle(s: Lifecycle.State, c: nat)
    requires Lifecycle.Inv(s) && !s.held && !s.destroyed
    ensures Lifecycle.Step(s, Lifecycle.Kill) == s
    ensures !s.status.RUNNING? && c !in s.calls ==>
              forall x :: Lifecycle.Step(Lifecycle.Settle(s), Lifecycle.Wait(c)).status == Awaited(s.status, x)
    ensures s.status.RUNNING? && c !in s.calls ==>
              c in Lifecycle.Step(s, Lifecycle.Wait(c)).calls
              && Lifecycle.Step(s, Lifecycle.Wait(c)).calls[c].CondWaiting?
    ensures c in s.calls && s.calls[c].CondWaiting? ==>
              Lifecycle.Step(Lifecycle.Settle(s), Lifecycle.WaitWake(c)).status == Awaited(Lifecycle.RUNNING, s.status)
    ensures Lifecycle.DestroySucceeds(s) <==> AtRest(s.status)
  {
    Lifecycle.SettleIsAStep(s);
  }

  datatype Entry = Entry(container: Registered, workdir: Option<string>)

  ghost predicate Lists(s: seq<Node<Entry>>, c: Registered) {
    exists i :: 0 <= i < |s| && s[i].data.container == c
  }

  ghost function Ids(s: seq<Node<Entry>>): set<string> {
    set n | n in s :: n.data.container.id
  }

  ghost function Containers(s: seq<Node<Entry>>): set<Registered> {
    set n | n in s :: n.data.container
  }

  ghost predicate EntryOk(base: string, e: Entry) {
    && ValidId(e.container.id)
    && (e.workdir.Some? ==> e.workdir.value == Workdir(base, e.container.id))
  }

  ghost predicate EntriesOk(base: string, s: seq<Node<Entry>>) {
    && (forall i :: 0 <= i < |s| ==> EntryOk(base, s[i].data))
    && (forall i, j :: 0 <= i < j < |s| ==> s[i].data.container.id != s[j].data.container.id)
  }

  ghost predicate AllAlive(s: seq<Node<Entry>>)
    reads Containers(s)
  {
    forall n :: n in s ==> !n.data.container.destroyed
  }

  /** The directory of every listed id but `id` is as it was. */
  ghost predicate OthersUntouched(base: string, s: seq<Node<Entry>>, id: string, t: Tree, t': Tree) {
    forall n :: n in s && n.data.container.id != id ==> SameUnder(Place(base, n.data.container.id), t, t')
  }

  lemma OnlyOwnDirectory(base: string, s: seq<Node<Entry>>, id: string, t: Tree, t': Tree)
    requires ChangedOnlyUnder(Place(base, id), t, t')
    ensures OthersUntouched(base, s, id, t, t')
  {
    forall n | n in s && n.data.container.id != id
      ensures SameUnder(Place(base, n.data.container.id), t, t')
    {
      Isolation(base, id, n.data.container.id, t, t');
    }
  }

  ghost function Dead(s: seq<Node<Entry>>): set<Registered>
    reads Containers(s)
  {
    set n | n in s && n.data.container.destroyed :: n.data.container
  }

  /** Every listed container that is not `dead` and has a directory finds it in the tree. */
  ghost predicate DirsFor(base: string, s: seq<Node<Entry>>, t: Tree, dead: set<Registered>) {
    forall n :: n in s && n.data.container !in dead && n.data.workdir.Some? ==> Place(base, n.data.container.id) in t
  }

  ghost predicate DirsPresent(base: string, s: seq<Node<Entry>>, t: Tree)
    reads Containers(s)
  {
    DirsFor(base, s, t, Dead(s))
  }

  // The choice of an id

  /** The first of the draws from number `k` on that is not taken; None after the last one. */
  function FirstFree(rand: nat -> nat, ids: set<string>, k: nat): Option<string>
    decreases TRIES - k
  {
    if k >= TRIES then None
    else if RandomId(rand, 7 * k) !in ids then Some(RandomId(rand, 7 * k))
    else FirstFree(rand, ids, k + 1)
  }

  lemma FirstFreeStep(rand: nat -> nat, ids: set<string>, k: nat)
    ensures FirstFree(rand, ids, k) ==
            if k >= TRIES then None
            else if RandomId(rand, 7 * k) !in ids then Some(RandomId(rand, 7 * k))
            else FirstFree(rand, ids, k + 1)
  {
  }

  /** Draw n is not taken, and every one before it, from draw k on, is. */
  ghost predicate IsFirstFree(rand: nat -> nat, ids: set<string>, k: nat, n: nat) {
    && RandomId(rand, 7 * n) !in ids
    && forall j {:trigger RandomId(rand, 7 * j)} :: k <= j < n ==> RandomId(rand, 7 * j) in ids
  }

  lemma {:induction false} FirstFreeIsFree(rand: nat -> nat, ids: set<string>, k: nat)
    ensures var id := FirstFree(rand, ids, k);
            && (id.Some? ==> ValidId(id.value) && |id.value| == 7 && id.value !in ids)
            && (id.None? <==>
                  forall j {:trigger RandomId(rand, 7 * j)} :: k <= j < TRIES ==> RandomId(rand, 7 * j) in ids)
    decreases TRIES - k
  {
    if k < TRIES {
      RandomIdValid(rand, 7 * k);
      FirstFreeIsFree(rand, ids, k + 1);
    }
  }

  lemma {:induction false} FirstFreeIsFirst(rand: nat -> nat, ids: set<string>, k: nat) returns (n: nat)
    requires FirstFree(rand, ids, k).Some?
    ensures k <= n < TRIES && IsFirstFree(rand, ids, k, n) && FirstFree(rand, ids, k) == Some(RandomId(rand, 7 * n))
    decreases TRIES - k
  {
    hide FirstFree, RandomId;
    FirstFreeStep(rand, ids, k);
    if RandomId(rand, 7 * k) !in ids {
      n := k;
    } else {
      n := FirstFreeIsFirst(rand, ids, k + 1);
    }
  }

  datatype Request = Request(id: Option<string>, image: Option<string>, filesystem: bool)

  /** What fails during a create: five allocations, mkdir, and the creation of the container itself. */
  datatype Luck = Luck(idBuffer: bool, node: bool, imagePath: bool, workdir: bool, mkdir: bool, container: bool)

  ghost function ChosenId(ids: set<string>, id: Option<string>, noBuffer: bool, rand: nat -> nat): Option<string> {
    match id
    case Some(given) => if given in ids then None else id
    case None => if noBuffer then None else FirstFree(rand, ids, 0)
  }

  /** The id a create works with, once its arguments are accepted and the first allocations succeeded. */
  ghost function Admitted(ids: set<string>, req: Request, luck: Luck, rand: nat -> nat): Option<string> {
    if (req.id.Some? && !ValidId(req.id.value)) || req.image.None? || !ValidId(req.image.value) || luck.node
       || luck.imagePath
    then None
    else ChosenId(ids, req.id, luck.idBuffer, rand)
  }

  /** The image name and the first allocations are in order. */
  predicate Acceptable(req: Request, luck: Luck) {
    req.image.Some? && ValidId(req.image.value) && !luck.node && !luck.imagePath
  }

  /** Exactly which id a create works with. A supplied one is taken as it is, iff it is a valid name that no listed
      container has; without one, the first draw that is free, and it fails only if the buffer for it cannot be had or
      all hundred draws are taken. */
  lemma AdmittedIff(ids: set<string>, req: Request, luck: Luck, rand: nat -> nat)
    ensures req.id.Some? ==>
              Admitted(ids, req, luck, rand) ==
              if Acceptable(req, luck) && ValidId(req.id.value) && req.id.value !in ids then req.id else None
    ensures req.id.None? ==>
              (Admitted(ids, req, luck, rand).None? <==>
                 || !Acceptable(req, luck) || luck.idBuffer
                 || forall j {:trigger RandomId(rand, 7 * j)} :: 0 <= j < 100 ==> RandomId(rand, 7 * j) in ids)
    ensures req.id.None? && Admitted(ids, req, luck, rand).Some? ==>
              exists n: nat :: n < 100 && IsFirstFree(rand, ids, 0, n)
                               && Admitted(ids, req, luck, rand).value == RandomId(rand, 7 * n)
  {
    hide FirstFree, RandomId, ValidId, IsFirstFree;
    FirstFreeIsFree(rand, ids, 0);
    if FirstFree(rand, ids, 0).Some? {
      var n := FirstFreeIsFirst(rand, ids, 0);
    }
  }

  /** Supplied or drawn, an admitted id is a valid name that no listed container has. */
  lemma AdmittedIsNew(ids: set<string>, req: Request, luck: Luck, rand: nat -> nat)
    ensures var a := Admitted(ids, req, luck, rand); a.Some? ==> ValidId(a.value) && a.value !in ids
  {
    FirstFreeIsFree(rand, ids, 0);
  }

  /** The container had no directory, or its directory was there and is gone. */
  ghost predicate Cleared(base: string, e: Entry, t: Tree, t': Tree) {
    e.workdir.Some? ==> Place(base, e.container.id) in t && Place(base, e.container.id) !in t'
  }

  /** What removing a listed container does to the tree, and what it returns. */
  ghost predicate RemovalOf(base: string, e: Entry, t: Tree, t': Tree, f: Faults, inUse: bool, rc: int) {
    var p := Place(base, e.container.id);
    && (rc == 0 || rc == -1)
    && (rc == 0 <==> !inUse && Cleared(base, e, t, t'))
    && ChangedOnlyUnder(p, t, t')
    && (inUse || e.workdir.None? ==> t' == t)
    && (rc == 0 && e.workdir.Some? ==> forall q :: p <= q ==> q !in t')
    && (!inUse && e.workdir.Some? && RmRf.NoAllocationFails(f, t, p) ==>
          t' == Remaining(f, t, p) && (rc == 0 <==> Removed(f, t, p, p)))
  }

  lemma ClearedIff(base: string, e: Entry, t: Tree, t': Tree, f: Faults, inUse: bool, rc: int)
    requires RemovalOf(base, e, t, t', f, inUse, rc)
    ensures var p := Place(base, e.container.id);
            !inUse && e.workdir.Some? && RmRf.NoAllocationFails(f, t, p) ==>
              (Cleared(base, e, t, t') <==> Removed(f, t, p, p))
  {
    hide Place, Removed, Remaining, RmRf.NoAllocationFails;
  }

  lemma ListedEntryOk(base: string, s: seq<Node<Entry>>, at: nat)
    requires EntriesOk(base, s) && at < |s|
    ensures EntryOk(base, s[at].data)
  {
  }

  lemma RemoveKeepsEntries(base: string, s: seq<Node<Entry>>, at: nat)
    requires EntriesOk(base, s) && at < |s|
    ensures EntriesOk(base, RemoveAt(s, at))
  {
  }

  lemma AppendKeepsEntries(base: string, s: seq<Node<Entry>>, n: Node<Entry>)
    requires EntriesOk(base, s) && EntryOk(base, n.data) && n.data.container.id !in Ids(s)
    ensures EntriesOk(base, s + [n])
  {
    forall i | 0 <= i < |s|
      ensures s[i].data.container.id != n.data.container.id
    {
      assert s[i] in s;
    }
  }

  lemma {:induction false} KeptSplit<E>(s: seq<E>, rcs: seq<int>, rc: int)
    requires |rcs| < |s|
    ensures Kept(s[..|rcs| + 1], rcs + [rc]) == Kept(s[..|rcs|], rcs) + if rc == 0 then [] else [s[|rcs|]]
  {
    assert s[..|rcs| + 1][..|rcs|] == s[..|rcs|];
    assert (rcs + [rc])[..|rcs|] == rcs;
  }

  /** The elements whose result is not 0, in order. */
  ghost function Kept<E>(s: seq<E>, rcs: seq<int>): seq<E>
    requires |s| == |rcs|
  {
    if s == [] then []
    else Kept(s[..|s| - 1], rcs[..|s| - 1]) + if rcs[|s| - 1] == 0 then [] else [s[|s| - 1]]
  }

  ghost predicate AllZero(rcs: seq<int>) {
    forall i :: 0 <= i < |rcs| ==> rcs[i] == 0
  }

  lemma {:induction false} KeptNothing<E>(s: seq<E>, rcs: seq<int>)
    requires |s| == |rcs|
    ensures Kept(s, rcs) == [] <==> AllZero(rcs)
  {
    if s != [] {
      var last := |s| - 1;
      KeptNothing(s[..last], rcs[..last]);
      assert AllZero(rcs) <==> AllZero(rcs[..last]) && rcs[last] == 0 by {
        assert rcs == rcs[..last] + [rcs[last]];
      }
    }
  }

  // A teardown in terms of what it starts from

  ghost function Statuses(s: seq<Node<Entry>>): map<Registered, Status>
    reads Containers(s)
  {
    map c | c in Containers(s) :: c.status
  }

  /** Which containers come to rest: those whose awaited status lets a destroy through. */
  ghost function StopsFrom(st: map<Registered, Status>, after: Registered -> Status): Registered -> bool {
    (c: Registered) => c in st && AtRest(Awaited(st[c], after(c)))
  }

  lemma {:induction false} KeptHas<E>(s: seq<E>, rcs: seq<int>, i: nat)
    requires |s| == |rcs| && i < |s| && rcs[i] != 0
    ensures s[i] in Kept(s, rcs)
  {
    var last := |s| - 1;
    if i < last {
      KeptHas(s[..last], rcs[..last], i);
    }
  }

  /** A container that does not come to rest, a PAUSED one for instance, survives the teardown with its directory. */
  lemma RestlessSurvive(base: string, s: seq<Node<Entry>>, rcs: seq<int>, stops: Registered -> bool, f: Faults, t: Tree,
                        t': Tree, n: Node<Entry>)
    requires |rcs| == |s| && Progress(base, s, rcs, stops, f, t, t') && n in s && !stops(n.data.container)
    ensures n in Kept(s, rcs) && SameUnder(Place(base, n.data.container.id), t, t')
  {
    hide Place, Removed, Kept;
    var i :| 0 <= i < |s| && s[i] == n;
    assert RemovalResult(base, s[i].data, rcs[i], stops, f, t, t');
    KeptHas(s, rcs, i);
  }

  /** No allocation fails in any rm_rf of the teardown. */
  ghost predicate NoneStarved(base: string, s: seq<Node<Entry>>, f: Faults, t: Tree) {
    forall n :: n in s && n.data.workdir.Some? ==> RmRf.NoAllocationFails(f, t, Place(base, n.data.container.id))
  }

  ghost predicate Removable(base: string, e: Entry, stops: Registered -> bool, f: Faults, t: Tree) {
    var p := Place(base, e.container.id);
    stops(e.container) && (e.workdir.Some? ==> Removed(f, t, p, p))
  }

  ghost predicate AllRemovable(base: string, s: seq<Node<Entry>>, stops: Registered -> bool, f: Faults, t: Tree) {
    forall n :: n in s ==> Removable(base, n.data, stops, f, t)
  }

  lemma EmptiedIff(base: string, s: seq<Node<Entry>>, rcs: seq<int>, stops: Registered -> bool, f: Faults, t: Tree,
                   t': Tree)
    requires |rcs| == |s| && Progress(base, s, rcs, stops, f, t, t') && NoneStarved(base, s, f, t)
    ensures AllZero(rcs) <==> AllRemovable(base, s, stops, f, t)
  {
    hide Place, Removed, RmRf.NoAllocationFails;
    forall i | 0 <= i < |s|
      ensures rcs[i] == 0 <==> Removable(base, s[i].data, stops, f, t)
    {
      assert s[i] in s && RemovalResult(base, s[i].data, rcs[i], stops, f, t, t');
    }
    hide Removable, Progress;
    if AllZero(rcs) {
      forall n | n in s
        ensures Removable(base, n.data, stops, f, t)
      {
        var i :| 0 <= i < |s| && s[i] == n;
      }
    }
    if AllRemovable(base, s, stops, f, t) {
      forall i | 0 <= i < |rcs|
        ensures rcs[i] == 0
      {
        assert s[i] in s;
      }
    }
  }

  ghost predicate FaultFree(f: Faults) {
    forall q: Path :: !f.lstat(q) && !f.opendir(q) && !f.unlink(q) && !f.rmdir(q) && !f.build(q) && !f.push(q)
  }

  lemma AllClear(base: string, s: seq<Node<Entry>>, stops: Registered -> bool, f: Faults, t: Tree)
    requires FaultFree(f) && (forall n :: n in s ==> stops(n.data.container)) && DirsFor(base, s, t, {})
    ensures NoneStarved(base, s, f, t) && AllRemovable(base, s, stops, f, t)
  {
    hide Place;
    forall n | n in s && n.data.workdir.Some?
      ensures var p := Place(base, n.data.container.id); Removed(f, t, p, p)
    {
      var p := Place(base, n.data.container.id);
      assert p in t;
      NoFaultRemovesSubtree(f, t, p, p);
    }
  }

  /** When all removals succeed, in terms of what the teardown starts from. */
  lemma TeardownOutcome(base: string, s: seq<Node<Entry>>, rcs: seq<int>, stops: Registered -> bool, f: Faults, t: Tree,
                        t': Tree)
    requires |rcs| == |s| && Progress(base, s, rcs, stops, f, t, t')
    ensures NoneStarved(base, s, f, t) ==>
              (AllZero(rcs) <==> AllRemovable(base, s, stops, f, t))
    ensures FaultFree(f) && (forall n :: n in s ==> stops(n.data.container)) && DirsFor(base, s, t, {}) ==>
              AllZero(rcs)
  {
    hide Progress, NoneStarved, AllRemovable, FaultFree, DirsFor;
    if FaultFree(f) && (forall n :: n in s ==> stops(n.data.container)) && DirsFor(base, s, t, {}) {
      AllClear(base, s, stops, f, t);
    }
    if NoneStarved(base, s, f, t) {
      EmptiedIff(base, s, rcs, stops, f, t, t');
    }
  }

  lemma AliveDirs(base: string, s: seq<Node<Entry>>, t: Tree)
    requires AllAlive(s)
    ensures DirsPresent(base, s, t) <==> DirsFor(base, s, t, {})
  {
    assert Dead(s) == {};
  }

  /** A create keeps the directories present: those of the others are untouched, and the new one is there. */
  lemma CreateDirs(base: string, s: seq<Node<Entry>>, s': seq<Node<Entry>>, id: string, t: Tree, t': Tree)
    requires DirsFor(base, s, t, {}) && OthersUntouched(base, s, id, t, t') && id !in Ids(s)
    requires s' == s || (|s'| == |s| + 1 && s'[..|s|] == s && s'[|s|].data.container.id == id
                         && (s'[|s|].data.workdir.Some? ==> Place(base, id) in t'))
    ensures DirsFor(base, s', t', {})
  {
    hide Place;
    forall n | n in s' && n.data.workdir.Some?
      ensures Place(base, n.data.container.id) in t'
    {
      var i :| 0 <= i < |s'| && s'[i] == n;
      if i < |s| {
        assert s'[..|s|][i] == n && n in s;
        var p := Place(base, n.data.container.id);
        assert p <= p && SameAt(t, t', p);
      }
    }
  }

  /** A failing input: an idle container whose rmdir fails. Its removal returns -1 and leaves the directory, so the
      destroyed container stays listed. */
  lemma RemovalStrands(e: Entry, t': Tree, rc: int)
    requires e.container.id == "a" && e.workdir.Some?
    requires RemovalOf("", e, WITH_DATA, t', RMDIR_FAILS, false, rc)
    ensures rc == -1 && !Cleared("", e, WITH_DATA, t')
  {
    WithDataWellFormed();
    RmdirFailsHere();
  }

  /** A teardown that has removed, or tried to remove, the first |rcs| containers of `s`. A removal returned 0
      exactly if the container had stopped and its directory, if any, was there and is gone; the directories
      still to come are untouched, and so is everything outside the directories of `s`. */
  ghost predicate Progress(base: string, s: seq<Node<Entry>>, rcs: seq<int>, stops: Registered -> bool, f: Faults,
                           t: Tree, t': Tree) {
    && |rcs| <= |s|
    && (forall i :: 0 <= i < |rcs| ==> RemovalResult(base, s[i].data, rcs[i], stops, f, t, t'))
    && (forall i :: |rcs| <= i < |s| ==> SameUnder(Place(base, s[i].data.container.id), t, t'))
    && (forall q :: OutsideAll(base, s, q) ==> SameAt(t, t', q))
  }

  ghost predicate RemovalResult(base: string, e: Entry, rc: int, stops: Registered -> bool, f: Faults, t: Tree,
                                t': Tree) {
    var p := Place(base, e.container.id);
    && (rc == 0 <==> stops(e.container) && (e.workdir.Some? ==> p in t && p !in t'))
    && (rc == 0 && e.workdir.Some? ==> forall q :: p <= q ==> q !in t')
    && (!stops(e.container) || e.workdir.None? ==> SameUnder(p, t, t'))
    && (stops(e.container) && e.workdir.Some? && RmRf.NoAllocationFails(f, t, p) ==> (rc == 0 <==> Removed(f, t, p, p)))
  }

  ghost predicate OutsideAll(base: string, s: seq<Node<Entry>>, q: Path) {
    forall n :: n in s && n.data.workdir.Some? ==> !(Place(base, n.data.container.id) <= q)
  }

  lemma ProgressStart(base: string, s: seq<Node<Entry>>, stops: Registered -> bool, f: Faults, t: Tree)
    ensures Progress(base, s, [], stops, f, t, t)
  {
  }

  lemma SameUnderTwice(p: Path, a: Tree, b: Tree, c: Tree)
    requires SameUnder(p, a, b) && SameUnder(p, b, c)
    ensures SameUnder(p, a, c)
  {
    forall q | p <= q
      ensures SameAt(a, c, q)
    {
      assert SameAt(a, b, q) && SameAt(b, c, q);
    }
  }

  lemma ResultKept(base: string, e: Entry, rc: int, stops: Registered -> bool, f: Faults, t: Tree, a: Tree, b: Tree)
    requires RemovalResult(base, e, rc, stops, f, t, a) && SameUnder(Place(base, e.container.id), a, b)
    ensures RemovalResult(base, e, rc, stops, f, t, b)
  {
    hide Place, Removed, RmRf.NoAllocationFails;
    var p := Place(base, e.container.id);
    assert SameAt(a, b, p);
    if !stops(e.container) || e.workdir.None? {
      SameUnderTwice(p, t, a, b);
    }
    if rc == 0 && e.workdir.Some? {
      forall q | p <= q
        ensures q !in b
      {
        assert SameAt(a, b, q);
      }
    }
  }

  /** The removal under way starts from an untouched directory. */
  lemma ResultNow(base: string, e: Entry, stops: Registered -> bool, t: Tree, a: Tree, b: Tree, f: Faults, rc: int)
    requires SameUnder(Place(base, e.container.id), t, a)
    requires RemovalOf(base, e, a, b, f, !stops(e.container), rc)
    ensures RemovalResult(base, e, rc, stops, f, t, b)
  {
    hide Place, Remaining, Removed, RmRf.NoAllocationFails;
    var p := Place(base, e.container.id);
    assert SameAt(t, a, p);
    RemovedIsLocal(f, p, t, a);
    if !stops(e.container) || e.workdir.None? {
      assert SameUnder(p, t, b);
    }
  }

  /** What rm_rf removes depends on nothing outside the subtree. */
  lemma RemovedIsLocal(f: Faults, p: Path, t: Tree, a: Tree)
    requires SameUnder(p, t, a)
    ensures Removed(f, t, p, p) <==> Removed(f, a, p, p)
    ensures RmRf.NoAllocationFails(f, t, p) <==> RmRf.NoAllocationFails(f, a, p)
  {
    assert SameAt(t, a, p);
    forall r | p <= r
      ensures (r in t <==> r in a) && (r in t ==> (CallsSucceed(f, t, r) <==> CallsSucceed(f, a, r)))
    {
      assert SameAt(t, a, r);
    }
  }

  lemma ProgressStep(base: string, s: seq<Node<Entry>>, rcs: seq<int>, stops: Registered -> bool, f: Faults, t: Tree,
                     a: Tree, b: Tree, rc: int)
    requires EntriesOk(base, s) && |rcs| < |s| && Progress(base, s, rcs, stops, f, t, a)
    requires RemovalOf(base, s[|rcs|].data, a, b, f, !stops(s[|rcs|].data.container), rc)
    ensures Progress(base, s, rcs + [rc], stops, f, t, b)
  {
    hide Place, Remaining, RemovalResult, SameUnder, SameAt, ChangedOnlyUnder, ValidId;
    var k, rcs' := |rcs|, rcs + [rc];
    var e := s[k].data;
    forall i | 0 <= i < |s| && i != k
      ensures SameUnder(Place(base, s[i].data.container.id), a, b)
    {
      Isolation(base, e.container.id, s[i].data.container.id, a, b);
    }
    ResultNow(base, e, stops, t, a, b, f, rc);
    forall i | 0 <= i < k
      ensures RemovalResult(base, s[i].data, rcs'[i], stops, f, t, b)
    {
      ResultKept(base, s[i].data, rcs[i], stops, f, t, a, b);
    }
    forall i | k < i < |s|
      ensures SameUnder(Place(base, s[i].data.container.id), t, b)
    {
      SameUnderTwice(Place(base, s[i].data.container.id), t, a, b);
    }
    forall q | OutsideAll(base, s, q)
      ensures SameAt(t, b, q)
    {
      OutsideStep(base, s, k, t, a, b, f, !stops(e.container), rc, q);
    }
  }

  lemma OutsideStep(base: string, s: seq<Node<Entry>>, k: nat, t: Tree, a: Tree, b: Tree, f: Faults, inUse: bool,
                    rc: int, q: Path)
    requires k < |s| && OutsideAll(base, s, q) && SameAt(t, a, q) && RemovalOf(base, s[k].data, a, b, f, inUse, rc)
    ensures SameAt(t, b, q)
  {
    hide Place, Remaining;
    assert s[k] in s;
    if s[k].data.workdir.Some? {
      assert SameAt(a, b, q);
    }
  }

  lemma KeptStart<E>(s: seq<E>)
    ensures Kept(s[..0], []) + s[0..] == s
  {
  }

  /** Taking the current element out, or not, is what its result says. */
  lemma KeptStep(s: seq<Node<Entry>>, rcs: seq<int>, rc: int)
    requires |rcs| < |s|
    ensures var front := Kept(s[..|rcs|], rcs); var now := front + s[|rcs|..];
            Kept(s[..|rcs| + 1], rcs + [rc]) + s[|rcs| + 1..] == if rc == 0 then RemoveAt(now, |front|) else now
  {
    hide Kept, RemoveAt;
    KeptSplit(s, rcs, rc);
    FirstOfRest(s, |rcs|);
    TakeOut(Kept(s[..|rcs|], rcs), s[|rcs|], s[|rcs| + 1..]);
  }

  lemma FirstOfRest<E>(s: seq<E>, k: nat)
    requires k < |s|
    ensures s[k..] == [s[k]] + s[k + 1..]
  {
  }

  lemma TakeOut(front: seq<Node<Entry>>, x: Node<Entry>, rest: seq<Node<Entry>>)
    ensures RemoveAt(front + ([x] + rest), |front|) == front + rest
    ensures front + [] == front
    ensures (front + [x]) + rest == front + ([x] + rest)
  {
  }

  lemma {:induction false} KeptSub<E>(s: seq<E>, rcs: seq<int>)
    requires |s| == |rcs|
    ensures forall x :: x in Kept(s, rcs) ==> x in s
  {
    if s != [] {
      KeptSub(s[..|s| - 1], rcs[..|s| - 1]);
    }
  }

  lemma KeptWithin<E>(s: seq<E>, rcs: seq<int>)
    requires |rcs| <= |s|
    ensures forall x :: x in Kept(s[..|rcs|], rcs) + s[|rcs|..] ==> x in s
  {
    KeptSub(s[..|rcs|], rcs);
    forall x | x in Kept(s[..|rcs|], rcs) + s[|rcs|..]
      ensures x in s
    {
      if x in Kept(s[..|rcs|], rcs) {
        assert x in s[..|rcs|];
      } else {
        assert x in s[|rcs|..];
      }
    }
  }

  /** All of `s` were stopped as far as they would, and the first `k` of them destroyed if they stopped. */
  ghost predicate Marks(s: seq<Node<Entry>>, k: nat, stops: Registered -> bool)
    reads Containers(s)
  {
    forall i :: 0 <= i < |s| ==>
      var c := s[i].data.container;
      c in Containers(s) && c.InUse() == !stops(c) && c.destroyed == (i < k && stops(c))
  }

  lemma DistinctContainers(base: string, s: seq<Node<Entry>>, i: nat, j: nat)
    requires EntriesOk(base, s) && i < |s| && j < |s| && i != j
    ensures s[i].data.container != s[j].data.container
  {
    if i < j {
      assert s[i].data.container.id != s[j].data.container.id;
    } else {
      assert s[j].data.container.id != s[i].data.container.id;
    }
  }

  lemma ListStarts(head: Node?<Entry>, s: seq<Node<Entry>>)
    requires IsList(Singly, head, s)
    ensures NoDup(s) && head == At(s, 0)
  {
  }

  lemma NextNode(head: Node?<Entry>, s: seq<Node<Entry>>, k: nat)
    requires IsList(Singly, head, s) && k < |s|
    ensures s[k].next == At(s, k + 1)
  {
  }

  /** A part of the list sees the deaths in the whole list. */
  lemma DeadInPart(base: string, s: seq<Node<Entry>>, s': seq<Node<Entry>>, t: Tree)
    requires forall n :: n in s' ==> n in s
    ensures DirsPresent(base, s', t) <==> DirsFor(base, s', t, Dead(s))
    ensures AllAlive(s') <==> forall n :: n in s' ==> n.data.container !in Dead(s)
  {
    forall n | n in s'
      ensures n.data.container in Dead(s) <==> n.data.container.destroyed
      ensures n.data.container in Dead(s') <==> n.data.container.destroyed
    {
    }
  }

  lemma RemoveAtMembers(s: seq<Node<Entry>>, at: nat)
    requires at < |s|
    ensures forall n :: n in RemoveAt(s, at) ==> n in s
    ensures forall n :: n in s && n != s[at] ==> n in RemoveAt(s, at)
  {
    var r := RemoveAt(s, at);
    forall n | n in s && n != s[at]
      ensures n in r
    {
      var i :| 0 <= i < |s| && s[i] == n;
      assert n == if i < at then r[i] else r[i - 1];
    }
  }

  lemma RemovalAlive(base: string, s: seq<Node<Entry>>, at: nat, s': seq<Node<Entry>>, t: Tree, t': Tree, f: Faults,
                     inUse: bool, rc: int, dead: set<Registered>)
    requires EntriesOk(base, s) && at < |s| && s' == (if rc == 0 then RemoveAt(s, at) else s)
    requires RemovalOf(base, s[at].data, t, t', f, inUse, rc)
    requires forall n :: n in s ==> (n.data.container in dead <==> n.data.container == s[at].data.container && !inUse)
    ensures (forall n :: n in s' ==> n.data.container !in dead) <==> inUse || Cleared(base, s[at].data, t, t')
  {
    hide Remaining, RemoveAt, Place;
    RemoveAtMembers(s, at);
    if rc == 0 {
      forall n | n in s'
        ensures n.data.container != s[at].data.container
      {
        GoneFrom(base, s, at, n);
      }
    } else {
      assert s[at] in s';
    }
  }

  lemma GoneFrom(base: string, s: seq<Node<Entry>>, at: nat, n: Node<Entry>)
    requires EntriesOk(base, s) && at < |s| && n in RemoveAt(s, at)
    ensures n.data.container != s[at].data.container
  {
    var r := RemoveAt(s, at);
    var i :| 0 <= i < |r| && r[i] == n;
    DistinctContainers(base, s, if i < at then i else i + 1, at);
  }

  lemma RemovalDirs(base: string, s: seq<Node<Entry>>, at: nat, s': seq<Node<Entry>>, t: Tree, t': Tree, f: Faults,
                    inUse: bool, rc: int, dead: set<Registered>, dead': set<Registered>)
    requires EntriesOk(base, s) && at < |s| && forall n :: n in s' ==> n in s
    requires RemovalOf(base, s[at].data, t, t', f, inUse, rc)
             && OthersUntouched(base, s, s[at].data.container.id, t, t')
    requires DirsFor(base, s, t, dead)
    requires forall n :: n in s && n.data.container !in dead' ==> n.data.container !in dead
    requires !inUse ==> s[at].data.container in dead'
    ensures DirsFor(base, s', t', dead')
  {
    hide Remaining, RemoveAt, Place;
    forall n | n in s' && n.data.container !in dead' && n.data.workdir.Some?
      ensures Place(base, n.data.container.id) in t'
    {
      var i :| 0 <= i < |s| && s[i] == n;
      var p := Place(base, n.data.container.id);
      assert p in t;
      if i == at {
        assert t' == t;
      } else {
        DistinctIds(base, s, i, at);
        assert p <= p && SameAt(t, t', p);
      }
    }
  }

  lemma DistinctIds(base: string, s: seq<Node<Entry>>, i: nat, j: nat)
    requires EntriesOk(base, s) && i < |s| && j < |s| && i != j
    ensures s[i].data.container.id != s[j].data.container.id
  {
    if i < j {
      assert s[i].data.container.id != s[j].data.container.id;
    } else {
      assert s[j].data.container.id != s[i].data.container.id;
    }
  }

  /** What a create does once it has its id: it succeeds iff nothing fails, and then adds one entry and at most a
      directory; otherwise the list is unchanged, and its own directory is rolled back by rm_rf. */
  ghost predicate Equipped(base: string, s: seq<Node<Entry>>, s': seq<Node<Entry>>, id: string, filesystem: bool,
                           luck: Luck, f: Faults, t: Tree, t': Tree, c: Registered?) {
    var p := Place(base, id);
    && (c != null <==> !luck.container && (filesystem ==> !luck.workdir && CanMkdir(t, p, luck.mkdir)))
    && (c != null ==>
          && c.id == id
          && |s'| == |s| + 1 && s'[..|s|] == s
          && s'[|s|].data == Entry(c, if filesystem then Some(Workdir(base, id)) else None)
          && t' == if filesystem then t[p := Dir] else t)
    && (c == null ==>
          && s' == s
          && ChangedOnlyUnder(p, t, t')
          && (!filesystem || luck.workdir ==> t' == t)
          && (filesystem && !luck.workdir && RmRf.NoAllocationFails(f, AfterMkdir(t, p, luck.mkdir), p) ==>
                t' == Remaining(f, AfterMkdir(t, p, luck.mkdir), p)))
  }

  lemma EquippedKeeps(base: string, s: seq<Node<Entry>>, s': seq<Node<Entry>>, id: string, filesystem: bool, luck: Luck,
                      f: Faults, t: Tree, t': Tree, c: Registered?)
    requires Equipped(base, s, s', id, filesystem, luck, f, t, t', c) && id !in Ids(s)
    ensures OthersUntouched(base, s, id, t, t')
    ensures DirsFor(base, s, t, {}) ==> DirsFor(base, s', t', {})
    ensures c != null <==> !luck.container && (filesystem ==> !luck.workdir && CanMkdir(t, Place(base, id), luck.mkdir))
    ensures c != null ==> c.id == id
  {
    hide Place, Remaining, OthersUntouched, DirsFor;
    if c != null {
      MkdirChangesOnly(t, Place(base, id), luck.mkdir);
    }
    OnlyOwnDirectory(base, s, id, t, t');
    if DirsFor(base, s, t, {}) {
      CreateDirs(base, s, s', id, t, t');
    }
  }
}
