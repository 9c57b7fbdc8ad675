/**
 The pthread objects of one container, as src/ocre/container.c uses them. What POSIX leaves undefined is a
 precondition here: joining a thread twice, using an attribute that is not initialised, initialising one that
 is, and unlocking a mutex that someone else holds.
 */
module Pthreads {
  import opened Lifecycle

  datatype Owner = Free | Caller(c: nat) | Runner(r: nat)

  class Platform {
    var owner: Owner
    var attr: bool
    var sem: nat
    var spawned: nat
    /** Every thread ever created; a handle is an index. */
    ghost var threads: seq<Thread>

    constructor ()
      ensures owner == Free && !attr && sem == 0 && spawned == 0 && threads == []
    {
      owner, attr, sem, spawned, threads := Free, false, 0, 0, [];
    }

    /** Returns once the mutex is free. */
    method Lock(who: Owner)
      requires who != Free && owner == Free
      modifies this`owner
      ensures owner == who
    {
      owner := who;
    }

    method Unlock(who: Owner)
      requires who != Free && owner == who
      modifies this`owner
      ensures owner == Free
    {
      owner := Free;
    }

    /** pthread_cond_wait up to the moment it sleeps. */
    method CondWait(who: Owner)
      requires who != Free && owner == who
      modifies this`owner
      ensures owner == Free
    {
      owner := Free;
    }

    method AttrInit(ok: bool)
      requires !attr
      modifies this`attr
      ensures attr == ok
    {
      attr := ok;
    }

    method AttrDestroy()
      requires attr
      modifies this`attr
      ensures !attr
    {
      attr := false;
    }

    method Create(ok: bool) returns (handle: nat)
      requires attr && |threads| == spawned
      modifies this`spawned, this`threads
      ensures ok ==> handle == old(spawned) && spawned == old(spawned) + 1
                     && threads == old(threads) + [Thread(Executing, 0, false, false, 0)]
      ensures !ok ==> spawned == old(spawned) && threads == old(threads)
    {
      handle := spawned;
      if ok {
        spawned := spawned + 1;
        threads := threads + [Thread(Executing, 0, false, false, 0)];
      }
    }

    /** Waits for the end of a thread. The caller may hold the mutex, so the thread must not need it any more. */
    method Join(handle: nat)
      requires handle < |threads| && threads[handle].joins == 0
      requires Published(threads[handle].phase) && !NeedsMutex(threads[handle].phase)
      modifies this`threads
      ensures threads == old(threads)[handle := old(threads)[handle].(phase := Ended, joins := 1)]
    {
      threads := threads[handle := threads[handle].(phase := Ended, joins := 1)];
    }

    method SemWait()
      requires sem > 0
      modifies this`sem
      ensures sem == old(sem) - 1
    {
      sem := sem - 1;
    }

    method SemPost()
      modifies this`sem
      ensures sem == old(sem) + 1
    {
      sem := sem + 1;
    }

    /** Records how far a thread is. */
    ghost method Reach(r: nat, t: Thread)
      requires r < |threads|
      modifies this`threads
      ensures threads == old(threads)[r := t]
    {
      threads := threads[r := t];
    }
  }
}
