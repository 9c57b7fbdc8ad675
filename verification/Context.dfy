/**
 The container registry of src/ocre/context.c: a list of containers, each with a directory of its own
 when it asked for one. Calls run under the context's mutex, so each is one step.
 */
module Context {
  import opened Wrappers
  import opened MergeSort
  import opened Utlist
  import opened ListOps
  import opened Paths
  import opened FileSystem
  import opened RmRfSpec
  import RmRf
  import opened Names
  import opened Workdirs
  import opened ContextSpec

  /** rm_rf on a directory of the registry changes nothing outside it, and clears it when it returns 0. */
  method RemoveWorkdir(disk: Disk, base: string, id: string, f: Faults, order: Order) returns (rc: int)
    requires ValidOrder(order) && WellFormed(disk.tree) && ValidId(id)
    modifies disk
    ensures disk.streams == old(disk.streams) && WellFormed(disk.tree)
    ensures var p, t := Place(base, id), old(disk.tree);
            && ChangedOnlyUnder(p, t, disk.tree)
            && (rc == 0 || rc == -1)
            && (rc == 0 <==> p in t && p !in disk.tree)
            && (rc == 0 ==> forall q :: p <= q ==> q !in disk.tree)
            && (RmRf.NoAllocationFails(f, t, p) ==>
                  disk.tree == Remaining(f, t, p) && (rc == 0 <==> Removed(f, t, p, p)))
  {
    hide Resolve, ValidId, ValidOrder;
    WorkdirNamesPlace(base, id);
    rc := RmRf.RmRf(disk, Some(Workdir(base, id)), f, order);
    hide Remaining;
    if rc == 0 {
      forall q | Place(base, id) <= q
        ensures q !in disk.tree
      {
        EmptyBelow(disk.tree, Place(base, id), q);
      }
    }
  }

  class Context {
    const workdir: string
    const disk: Disk
    var containers: Node?<Entry>
    /** The nodes that `containers` links. */
    ghost var list: seq<Node<Entry>>

    /** Ids are pairwise distinct valid names, and every directory is the one of its id. */
    ghost predicate Valid()
      reads this, disk, list
    {
      && IsList(Singly, containers, list)
      && EntriesOk(workdir, list)
      && WellFormed(disk.tree)
    }

    constructor (workdir: string, disk: Disk)
      requires WellFormed(disk.tree)
      ensures Valid() && list == [] && this.workdir == workdir && this.disk == disk
    {
      this.workdir, this.disk := workdir, disk;
      containers, list := null, [];
    }

    /** ocre_context_get_container_by_id_locked reads every listed container, so none may be destroyed. */
    method GetById(id: string) returns (c: Registered?)
      requires Valid() && AllAlive(list)
      ensures c == null <==> id !in Ids(list)
      ensures c != null ==> c.id == id && Lists(list, c)
    {
      var node, k := containers, 0;
      while node != null
        invariant k <= |list| && node == At(list, k)
        invariant forall i :: 0 <= i < k ==> list[i].data.container.id != id
        decreases |list| - k
      {
        if node.data.container.id == id {
          return node.data.container;
        }
        node := node.next;
        k := k + 1;
      }
      c := null;
    }

    /** make_unique_random_container_id */
    method MakeUniqueRandomId(noBuffer: bool, rand: nat -> nat) returns (id: Option<string>)
      requires Valid() && AllAlive(list)
      ensures id == if noBuffer then None else FirstFree(rand, Ids(list), 0)
    {
      hide FirstFree, RandomId, Ids, IsList, EntriesOk, WellFormed;
      if noBuffer {
        return None;
      }
      for k := 0 to TRIES
        invariant FirstFree(rand, Ids(list), k) == FirstFree(rand, Ids(list), 0)
      {
        FirstFreeStep(rand, Ids(list), k);
        var drawn := GenerateRandomId(rand, 7 * k);
        var taken := GetById(drawn);
        if taken == null {
          return Some(drawn);
        }
      }
      FirstFreeStep(rand, Ids(list), TRIES);
      id := None;
    }

    method PickId(id: Option<string>, noBuffer: bool, rand: nat -> nat) returns (chosen: Option<string>)
      requires Valid() && AllAlive(list)
      ensures chosen == ChosenId(Ids(list), id, noBuffer, rand)
    {
      if id.None? {
        chosen := MakeUniqueRandomId(noBuffer, rand);
      } else {
        var taken := GetById(id.value);
        chosen := if taken != null then None else id;
      }
    }

    method Register(id: string, dir: Option<string>) returns (c: Registered)
      requires Valid() && ValidId(id) && id !in Ids(list) && (dir.Some? ==> dir.value == Workdir(workdir, id))
      modifies this`containers, this`list, list`next
      ensures Valid() && fresh(c) && c.id == id && !c.destroyed
      ensures |list| == |old(list)| + 1 && list[..|old(list)|] == old(list) && list[|old(list)|].data == Entry(c, dir)
    {
      hide EntriesOk, WellFormed, IsList, ValidId, Workdir, Ids;
      c := new Registered(id);
      var node := new Node(Entry(c, dir));
      AppendKeepsEntries(workdir, list, node);
      containers := Append(containers, node, list);
      list := list + [node];
    }

    /** mkdir on the directory of an id. */
    method MakeWorkdir(id: string, fault: bool) returns (rc: int)
      requires Valid() && ValidId(id)
      modifies disk`tree
      ensures Valid()
      ensures rc == if CanMkdir(old(disk.tree), Place(workdir, id), fault) then 0 else -1
      ensures disk.tree == AfterMkdir(old(disk.tree), Place(workdir, id), fault)
    {
      hide Resolve;
      WorkdirNamesPlace(workdir, id);
      rc := disk.Mkdir(Workdir(workdir, id), fault);
      if rc == 0 {
        ValidIdIsComponent(id);
        assert Last(Place(workdir, id)) == id;
        MkdirWellFormed(old(disk.tree), Place(workdir, id));
      }
    }

    /** ocre_context_create_container. A create that fails leaves the list as it was; it changes nothing
        outside the directory of its own id, and nothing at all unless it got as far as mkdir. */
    method Create(req: Request, luck: Luck, rand: nat -> nat, f: Faults, order: Order) returns (c: Registered?)
      requires Valid() && AllAlive(list) && ValidOrder(order)
      modifies this`containers, this`list, list`next, disk
      ensures Valid() && AllAlive(list) && disk.streams == old(disk.streams)
      ensures old(DirsPresent(workdir, list, disk.tree)) ==> DirsPresent(workdir, list, disk.tree)
      ensures c != null ==> fresh(c)
      ensures req.id.Some? ==>
                (c != null <==>
                   && ValidId(req.id.value) && req.id.value !in Ids(old(list))
                   && Acceptable(req, luck) && !luck.container
                   && (req.filesystem ==>
                         !luck.workdir && CanMkdir(old(disk.tree), Place(workdir, req.id.value), luck.mkdir)))
      ensures req.id.Some? && c != null ==> c.id == req.id.value
      ensures var a, t := Admitted(Ids(old(list)), req, luck, rand), old(disk.tree);
              if a.None? then
                c == null && list == old(list) && disk.tree == t
              else
                && ValidId(a.value) && a.value !in Ids(old(list))
                && OthersUntouched(workdir, old(list), a.value, t, disk.tree)
                && Equipped(workdir, old(list), list, a.value, req.filesystem, luck, f, t, disk.tree, c)
    {
      hide FirstFree, Remaining, ValidId, ValidOrder, WellFormed, IsList, EntriesOk, Equipped, OthersUntouched,
           CanMkdir, Place;
      AdmittedIsNew(Ids(list), req, luck, rand);
      AdmittedIff(Ids(list), req, luck, rand);
      AliveDirs(workdir, list, disk.tree);
      hide DirsPresent;
      var ok;
      if req.id.Some? {
        ok := IsValidName(req.id);
        if !ok {
          return null;
        }
      }
      ok := IsValidName(req.image);
      if !ok {
        return null;
      }
      var id := PickId(req.id, luck.idBuffer, rand);
      if id.None? || luck.node || luck.imagePath {
        return null;
      }
      c := Equip(id.value, req.filesystem, luck, f, order);
      EquippedKeeps(workdir, old(list), list, id.value, req.filesystem, luck, f, old(disk.tree), disk.tree, c);
      AliveDirs(workdir, list, disk.tree);
    }

    /** The part of create that follows the choice of the id. */
    method Equip(id: string, filesystem: bool, luck: Luck, f: Faults, order: Order) returns (c: Registered?)
      requires Valid() && AllAlive(list) && ValidOrder(order) && ValidId(id) && id !in Ids(list)
      modifies this`containers, this`list, list`next, disk
      ensures Valid() && AllAlive(list) && disk.streams == old(disk.streams)
      ensures c != null ==> fresh(c)
      ensures Equipped(workdir, old(list), list, id, filesystem, luck, f, old(disk.tree), disk.tree, c)
    {
      hide Remaining, ValidId, ValidOrder, WellFormed, IsList, EntriesOk;
      var dir, rc := None, 0;
      if filesystem {
        if luck.workdir {
          return null;
        }
        dir := Some(Workdir(workdir, id));
        rc := MakeWorkdir(id, luck.mkdir);
      }
      if rc == 0 && !luck.container {
        c := Register(id, dir);
        assert forall i :: 0 <= i < |old(list)| ==> list[i] == list[..|old(list)|][i];
      } else {
        if dir.Some? {
          MkdirChangesOnly(old(disk.tree), Place(workdir, id), luck.mkdir);
          ghost var made := disk.tree;
          rc := RemoveWorkdir(disk, workdir, id, f, order);
          ChangedTwice(Place(workdir, id), old(disk.tree), made, disk.tree);
        }
        c := null;
      }
    }

    /** Takes a listed node out of the list. */
    method Unregister(node: Node<Entry>, ghost at: nat)
      requires Valid() && at < |list| && node == list[at]
      modifies this`containers, this`list, list`next
      ensures Valid() && list == RemoveAt(old(list), at)
    {
      hide WellFormed, Without, RemoveAt, IsList, EntriesOk;
      ListStarts(containers, list);
      containers := Delete(containers, node, list);
      WithoutAt(list, at);
      list := RemoveAt(list, at);
      RemoveKeepsEntries(workdir, old(list), at);
    }

    /** The body of the search loop for the node that holds the container. */
    method RemoveNode(node: Node<Entry>, f: Faults, order: Order, ghost at: nat) returns (rc: int)
      requires Valid() && ValidOrder(order) && at < |list| && node == list[at] && !node.data.container.destroyed
      modifies this`containers, this`list, list`next, disk, node.data.container`destroyed
      ensures Valid() && disk.streams == old(disk.streams)
      ensures RemovalOf(workdir, node.data, old(disk.tree), disk.tree, f, node.data.container.InUse(), rc)
      ensures list == if rc == 0 then RemoveAt(old(list), at) else old(list)
      ensures node.data.container.destroyed == !node.data.container.InUse()
    {
      hide Remaining, WellFormed, IsList, EntriesOk, ValidOrder, Resolve;
      assert EntryOk(workdir, node.data) by { ListedEntryOk(workdir, list, at); }
      rc := node.data.container.Destroy();
      if rc != 0 {
        return -1;
      }
      if node.data.workdir.Some? {
        rc := RemoveWorkdir(disk, workdir, node.data.container.id, f, order);
        if rc != 0 {
          return -1;
        }
      }
      Unregister(node, at);
      rc := 0;
    }

    /** The search loop of a removal. */
    method Find(container: Registered) returns (node: Node?<Entry>, ghost at: nat)
      requires Valid()
      ensures at <= |list| && node == At(list, at)
      ensures at < |list| ==> list[at].data.container == container
      ensures at == |list| ==> !Lists(list, container)
    {
      hide WellFormed, EntriesOk, IsList;
      node := containers;
      ListStarts(containers, list);
      at := 0;
      while node != null && node.data.container != container
        invariant at <= |list| && node == At(list, at)
        invariant forall i :: 0 <= i < at ==> list[i].data.container != container
        decreases |list| - at
      {
        NextNode(containers, list, at);
        node := node.next;
        at := at + 1;
      }
    }

    /** ocre_context_remove_container_locked. `at` is where the container was listed, if it was. When the
        directory cannot be removed the node stays, although its container is gone. */
    method RemoveLocked(container: Registered, f: Faults, order: Order) returns (rc: int, ghost at: nat)
      requires Valid() && ValidOrder(order) && !container.destroyed
      modifies this`containers, this`list, list`next, disk, container`destroyed
      ensures Valid() && disk.streams == old(disk.streams) && container.InUse() == old(container.InUse())
      ensures at <= |old(list)| && (at < |old(list)| <==> Lists(old(list), container))
      ensures at < |old(list)| ==>
                && old(list)[at].data.container == container
                && RemovalOf(workdir, old(list)[at].data, old(disk.tree), disk.tree, f, container.InUse(), rc)
                && list == (if rc == 0 then RemoveAt(old(list), at) else old(list))
                && OthersUntouched(workdir, old(list), container.id, old(disk.tree), disk.tree)
                && container.destroyed == !container.InUse()
      ensures at == |old(list)| ==>
                rc == -1 && list == old(list) && disk.tree == old(disk.tree) && !container.destroyed
    {
      hide Remaining, WellFormed, EntriesOk, ValidOrder, Resolve, RemoveAt, OthersUntouched, IsList;
      var node;
      node, at := Find(container);
      if node == null {
        return -1, at;
      }
      rc := RemoveNode(node, f, order, at);
      OnlyOwnDirectory(workdir, old(list), container.id, old(disk.tree), disk.tree);
    }

    /** ocre_context_remove_container. The registry stays usable, with no destroyed container in its list, exactly
        if the container was not listed, was in use, or left no directory behind. */
    method Remove(container: Registered, f: Faults, order: Order) returns (rc: int, ghost at: nat)
      requires Valid() && ValidOrder(order) && !container.destroyed
      modifies this`containers, this`list, list`next, disk, container`destroyed
      ensures Valid() && disk.streams == old(disk.streams) && container.InUse() == old(container.InUse())
      ensures at <= |old(list)| && (at < |old(list)| <==> Lists(old(list), container))
      ensures at < |old(list)| ==>
                && old(list)[at].data.container == container
                && RemovalOf(workdir, old(list)[at].data, old(disk.tree), disk.tree, f, container.InUse(), rc)
                && list == (if rc == 0 then RemoveAt(old(list), at) else old(list))
                && OthersUntouched(workdir, old(list), container.id, old(disk.tree), disk.tree)
                && container.destroyed == !container.InUse()
      ensures at == |old(list)| ==> rc == -1 && list == old(list) && disk.tree == old(disk.tree) && !container.destroyed
      ensures at < |old(list)| && old(AllAlive(list)) ==>
                (AllAlive(list) <==>
                   container.InUse() || Cleared(workdir, old(list)[at].data, old(disk.tree), disk.tree))
      ensures at < |old(list)| && old(AllAlive(list)) && !container.InUse() && old(list)[at].data.workdir.Some?
              && RmRf.NoAllocationFails(f, old(disk.tree), Place(workdir, container.id)) ==>
                (AllAlive(list) <==>
                   Removed(f, old(disk.tree), Place(workdir, container.id), Place(workdir, container.id)))
      ensures at == |old(list)| && old(AllAlive(list)) ==> AllAlive(list)
      ensures old(DirsPresent(workdir, list, disk.tree)) ==> DirsPresent(workdir, list, disk.tree)
    {
      hide Remaining, WellFormed, EntriesOk, ValidOrder, Resolve, RemoveAt, OthersUntouched, IsList, RemovalOf, Cleared,
           AllAlive, DirsPresent, Removed, Place, RmRf.NoAllocationFails;
      ghost var s, t, dead := list, disk.tree, Dead(list);
      DeadInPart(workdir, s, s, t);
      rc, at := RemoveLocked(container, f, order);
      assert forall n :: n in s && n.data.container != container ==>
               (n.data.container in Dead(s) <==> n.data.container in dead);
      if at < |s| {
        assert s[at] in s;
        RemoveAtMembers(s, at);
        DeadInPart(workdir, s, list, disk.tree);
        if DirsFor(workdir, s, t, dead) {
          RemovalDirs(workdir, s, at, list, t, disk.tree, f, container.InUse(), rc, dead, Dead(s));
        }
        ClearedIff(workdir, s[at].data, t, disk.tree, f, container.InUse(), rc);
        if old(AllAlive(list)) {
          RemovalAlive(workdir, s, at, list, t, disk.tree, f, container.InUse(), rc, Dead(s));
        }
      } else {
        assert Dead(s) == dead;
        DeadInPart(workdir, s, s, t);
      }
    }

    /** The first loop of a teardown: a kill signal for every container that is RUNNING. */
    method KillAll()
      requires Valid()
      modifies Containers(list)`signalled
      ensures Valid() && forall n :: n in list && n.data.container.status.RUNNING? ==> n.data.container.signalled
    {
      hide WellFormed, EntriesOk, IsList;
      ListStarts(containers, list);
      var node, k := containers, 0;
      while node != null
        invariant Valid() && k <= |list| && node == At(list, k)
        invariant forall i :: 0 <= i < k && list[i].data.container.status.RUNNING? ==> list[i].data.container.signalled
        decreases |list| - k
      {
        assert list[k] in list && node.data.container in Containers(list);
        var rc := node.data.container.Kill();
        NextNode(containers, list, k);
        node := node.next;
        k := k + 1;
      }
    }

    /** The second loop: every container is waited for. `after` is what a wait that sleeps finds when it wakes. */
    method WaitAll(after: Registered -> Status)
      requires Valid() && forall n :: n in list && n.data.container.status.RUNNING? ==> n.data.container.signalled
      modifies Containers(list)`status
      ensures Valid()
      ensures forall i :: 0 <= i < |list| ==>
                var c := list[i].data.container; c.status == Awaited(old(c.status), after(c))
    {
      hide WellFormed, EntriesOk, IsList, Awaited;
      ListStarts(containers, list);
      var node, k := containers, 0;
      while node != null
        invariant Valid() && k <= |list| && node == At(list, k)
        invariant forall i :: 0 <= i < |list| ==>
          var c := list[i].data.container;
          c.status == if i < k then Awaited(old(c.status), after(c)) else old(c.status)
        decreases |list| - k
      {
        assert list[k] in list && node.data.container in Containers(list);
        forall i | 0 <= i < |list| && i != k
          ensures list[i].data.container != node.data.container
        {
          DistinctContainers(workdir, list, i, k);
        }
        node.data.container.Wait(after(node.data.container));
        NextNode(containers, list, k);
        node := node.next;
        k := k + 1;
      }
    }

    /** One turn of the removal loop of a teardown: the node at position |rcs| of the list `s` it started with. */
    method RemoveNext(node: Node<Entry>, f: Faults, order: Order, ghost stops: Registered -> bool,
                      ghost s: seq<Node<Entry>>, ghost rcs: seq<int>, ghost t: Tree)
      returns (next: Node?<Entry>, ghost rc: int)
      requires ValidOrder(order) && EntriesOk(workdir, s)
      requires Valid() && |rcs| < |s| && node == s[|rcs|] && list == Kept(s[..|rcs|], rcs) + s[|rcs|..]
      requires Progress(workdir, s, rcs, stops, f, t, disk.tree) && Marks(s, |rcs|, stops)
      modifies this`containers, this`list, s`next, disk, Containers(s)`destroyed
      ensures Valid() && disk.streams == old(disk.streams)
      ensures next == At(s, |rcs| + 1) && list == Kept(s[..|rcs| + 1], rcs + [rc]) + s[|rcs| + 1..]
      ensures Progress(workdir, s, rcs + [rc], stops, f, t, disk.tree) && Marks(s, |rcs| + 1, stops)
    {
      hide Kept, Progress, EntriesOk, WellFormed, IsList, ValidOrder, OthersUntouched, RemoveAt, RemovalOf;
      ghost var kept := |Kept(s[..|rcs|], rcs)|;
      NextNode(containers, list, kept);
      next := node.next;
      ghost var before, at := list, 0;
      forall i | 0 <= i < |s| && i != |rcs|
        ensures s[i].data.container != node.data.container
      {
        DistinctContainers(workdir, s, i, |rcs|);
      }
      KeptWithin(s, rcs);
      assert forall i :: 0 <= i < |list| ==> list[i] in list && list[i] in s;
      assert node in s && node.data.container in Containers(s);
      assert before[kept] == node && Lists(before, node.data.container);
      rc, at := RemoveLocked(node.data.container, f, order);
      if at != kept {
        DistinctContainers(workdir, before, at, kept);
      }
      ProgressStep(workdir, s, rcs, stops, f, t, old(disk.tree), disk.tree, rc);
      KeptStep(s, rcs, rc);
    }

    /** The removal loop of ocre_context_destroy: LL_FOREACH_SAFE, removing nodes while it walks. */
    method RemoveAll(f: Faults, order: Order, ghost stops: Registered -> bool) returns (ghost rcs: seq<int>)
      requires Valid() && ValidOrder(order) && Marks(list, 0, stops)
      modifies this`containers, this`list, list`next, disk, Containers(list)`destroyed
      ensures Valid() && disk.streams == old(disk.streams)
      ensures |rcs| == |old(list)| && list == Kept(old(list), rcs)
      ensures Progress(workdir, old(list), rcs, stops, f, old(disk.tree), disk.tree) && Marks(old(list), |rcs|, stops)
    {
      hide Kept, Progress, EntriesOk, WellFormed, IsList, ValidOrder, Marks;
      ghost var s, t := list, disk.tree;
      rcs := [];
      ListStarts(containers, list);
      KeptStart(s);
      ProgressStart(workdir, s, stops, f, t);
      var node := containers;
      while node != null
        invariant Valid() && disk.streams == old(disk.streams)
        invariant |rcs| <= |s| && node == At(s, |rcs|)
        invariant list == Kept(s[..|rcs|], rcs) + s[|rcs|..]
        invariant Progress(workdir, s, rcs, stops, f, t, disk.tree) && Marks(s, |rcs|, stops)
        decreases |s| - |rcs|
      {
        ghost var rc;
        node, rc := RemoveNext(node, f, order, stops, s, rcs, t);
        rcs := rcs + [rc];
      }
      assert s[..|rcs|] == s && s[|rcs|..] == [];
    }

    /** ocre_context_destroy: every container is killed, then waited for, then visited once, in list order; those
        whose removal failed are left. What is left follows from the statuses, from what the waits that sleep find,
        and from which calls fail: the list is empty iff every container comes to rest and rm_rf can clear every
        directory. A PAUSED container never does: kill refuses it, wait does not sleep, destroy refuses it. */
    method Teardown(f: Faults, order: Order, after: Registered -> Status) returns (ghost rcs: seq<int>)
      requires Valid() && AllAlive(list) && ValidOrder(order)
      modifies this`containers, this`list, list`next, disk, Containers(list)
      ensures Valid() && disk.streams == old(disk.streams)
      ensures |rcs| == |old(list)| && list == Kept(old(list), rcs)
      ensures list == [] <==> containers == null
      ensures list == [] <==> AllZero(rcs)
      ensures Progress(workdir, old(list), rcs, StopsFrom(old(Statuses(list)), after), f, old(disk.tree), disk.tree)
      ensures NoneStarved(workdir, old(list), f, old(disk.tree)) ==>
                (list == [] <==>
                   AllRemovable(workdir, old(list), StopsFrom(old(Statuses(list)), after), f, old(disk.tree)))
      ensures && FaultFree(f)
              && (forall n :: n in old(list) ==>
                    AtRest(Awaited(old(n.data.container.status), after(n.data.container))))
              && old(DirsPresent(workdir, list, disk.tree))
              ==> list == []
      ensures forall n :: n in old(list) ==>
                n.data.container.destroyed == AtRest(Awaited(old(n.data.container.status), after(n.data.container)))
      ensures forall n :: n in old(list) && old(n.data.container.status).PAUSED? ==>
                n in list && SameUnder(Place(workdir, n.data.container.id), old(disk.tree), disk.tree)
    {
      hide Kept, Progress, EntriesOk, WellFormed, ValidOrder, NoneStarved, AllRemovable, FaultFree, DirsPresent, IsList,
           SameUnder, Place, AllZero;
      ghost var s: seq<Node<Entry>> := list;
      ghost var t, stops := disk.tree, StopsFrom(Statuses(list), after);
      assert forall n :: n in s ==>
        stops(n.data.container) == AtRest(Awaited(old(n.data.container.status), after(n.data.container)));
      AliveDirs(workdir, s, t);
      rcs := StopAndRemoveAll(f, order, after);
      ListStarts(containers, list);
      KeptNothing(s, rcs);
      TeardownOutcome(workdir, s, rcs, stops, f, t, disk.tree);
      forall n | n in s && !stops(n.data.container)
        ensures n in list && SameUnder(Place(workdir, n.data.container.id), t, disk.tree)
      {
        RestlessSurvive(workdir, s, rcs, stops, f, t, disk.tree, n);
      }
    }

    method StopAndRemoveAll(f: Faults, order: Order, after: Registered -> Status) returns (ghost rcs: seq<int>)
      requires Valid() && AllAlive(list) && ValidOrder(order)
      modifies this`containers, this`list, list`next, disk, Containers(list)
      ensures Valid() && disk.streams == old(disk.streams)
      ensures |rcs| == |old(list)| && list == Kept(old(list), rcs)
      ensures var stops := StopsFrom(old(Statuses(list)), after);
              && Progress(workdir, old(list), rcs, stops, f, old(disk.tree), disk.tree)
              && forall n :: n in old(list) ==> n.data.container.destroyed == stops(n.data.container)
    {
      hide Kept, Progress, EntriesOk, WellFormed, ValidOrder, IsList;
      ghost var s, stops := list, StopsFrom(Statuses(list), after);
      KillAll();
      WaitAll(after);
      forall i | 0 <= i < |s|
        ensures s[i].data.container in Containers(s) && s[i].data.container.InUse() == !stops(s[i].data.container)
      {
        assert s[i] in s;
      }
      assert Marks(s, 0, stops);
      rcs := RemoveAll(f, order, stops);
      assert forall n :: n in s ==> exists i :: 0 <= i < |s| && s[i] == n;
    }
  }
}
