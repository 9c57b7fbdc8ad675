/**
 struct ocre_container with the functions of src/ocre/container.c that change it. Each function locks, works
 and unlocks on the pthread objects, whose preconditions are proved at every call, and is proved against its
 step in `Lifecycle`.
 */
module Container {
  import opened Wrappers
  import opened Lifecycle
  import opened Pthreads

  lemma AttributeIsLive(s: State)
    requires Inv(s) && s.status == EXITED
    ensures Unjoined(s) && s.attrs == 1
  {
  }

  lemma AttributeIsFree(s: State)
    requires Inv(s) && (s.status == CREATED || s.status == STOPPED)
    ensures s.attrs == 0
  {
  }

  /** A caller that gets the mutex takes its step once the thread has settled. */
  lemma SectionSteps(s: State, c: nat)
    requires Inv(s) && !s.held && !s.destroyed
    ensures var s1 := Settle(s);
            && (c !in s.calls ==> forall a, m, k :: Enabled(s1, Start(c, a, m, k)))
            && (c !in s.calls || s.calls[c] == WaitNext ==> Enabled(s1, Wait(c)))
            && (c in s.calls && s.calls[c] == CondWaiting ==> Enabled(s1, WaitWake(c)))
            && Enabled(s1, GetStatus)
  {
    SettleIsAStep(s);
  }

  lemma StartFacts(s: State, c: nat, attrOk: bool, mallocOk: bool, createOk: bool)
    requires Inv(s) && !s.held && !s.destroyed && c !in s.calls
    ensures var s1 := StartSection(Settle(s), c, attrOk, mallocOk, createOk);
            Step(Settle(s), Start(c, attrOk, mallocOk, createOk)) == s1 && Inv(s1)
  {
    hide StartSection, Inv;
    SectionSteps(s, c);
    SettleIsAStep(s);
    StartInv(Settle(s), c, attrOk, mallocOk, createOk);
  }

  lemma WaitFacts(s: State, c: nat)
    requires Inv(s) && !s.held && !s.destroyed && (c !in s.calls || s.calls[c] == WaitNext)
    ensures Step(Settle(s), Wait(c)) == WaitSection(Settle(s), c) && Inv(WaitSection(Settle(s), c))
    ensures s.status != EXITED ==> Settle(s) == s
    ensures Settle(s).status == s.status
    ensures WaitWrites(Settle(s)).Some? ==> Reports(WaitFinish(Settle(s), c), WaitWrites(Settle(s)).value)
  {
    SectionSteps(s, c);
    SettleIsAStep(s);
    StepInv(Settle(s), Wait(c));
    WritesReport(Settle(s), c);
  }

  lemma WakeFacts(s: State, c: nat)
    requires Inv(s) && !s.held && !s.destroyed && c in s.calls && s.calls[c] == CondWaiting
    ensures Step(Settle(s), WaitWake(c)) == WaitFinish(Settle(s), c)
    ensures WaitWrites(Settle(s)).Some? ==> Reports(WaitFinish(Settle(s), c), WaitWrites(Settle(s)).value)
  {
    SectionSteps(s, c);
    SettleIsAStep(s);
    WritesReport(Settle(s), c);
  }

  /** The run before is over, joined, and had this result. */
  ghost predicate Reports(s: State, value: int) {
    s.status == STOPPED && |s.threads| > 0 && !Unjoined(s) && value == Last(s).result
  }

  lemma WritesReport(s: State, c: nat)
    requires Inv(s) && !s.held && JoinReturns(s)
    ensures WaitWrites(s).Some? ==> Reports(WaitFinish(s, c), WaitWrites(s).value)
  {
    if |s.threads| > 0 {
      assert ThreadOk(Last(s));
    }
  }

  lemma SettleKeeps(s: State)
    ensures Settle(s).exitCode == s.exitCode && StatusLocked(Settle(s)).exitCode == s.exitCode
    ensures WaitWrites(Settle(s)) == if StatusLocked(Settle(s)).status == STOPPED then Some(s.exitCode) else None
  {
  }

  lemma CallsDoNotMatter(s: State, c: nat)
    requires Inv(s)
    ensures Inv(s.(calls := s.calls - {c}))
  {
  }

  lemma DestroyFacts(s: State)
    requires Inv(s) && !s.destroyed && s.calls == map[]
    ensures var s1 := Finish(s); var s2 := StatusLocked(s1);
            && Settle(s1) == s1 && (s.status != EXITED ==> s1 == s && s2 == s)
            && Step(s1, Destroy) == (if DestroySucceeds(s1) then s2.(destroyed := true) else s2)
            && Inv(Step(s1, Destroy))
            && (DestroySucceeds(s1) ==> (Unjoined(s2) <==> s.stained) && (s2.attrs == 1 <==> s.stained))
  {
    FinishIsRun(s);
    FinishKeeps(s);
    hide Finish;
    StepInv(Finish(s), Destroy);
  }

  lemma FinishKeeps(s: State)
    requires Inv(s)
    ensures var s1 := Finish(s);
            && Settle(s1) == s1 && (s.status != EXITED ==> s1 == s)
            && s1.calls == s.calls && s1.destroyed == s.destroyed && s1.stained == s.stained && s1.status == s.status
  {
    if s.status == EXITED {
      var s1 := Finish(s);
      assert s1.threads[|s1.threads| - 1 := Last(s1)] == s1.threads;
    }
  }

  /** Behind the first write of the thread, its second write makes the exit code its result. */
  lemma CodeAfterMark(s: State)
    requires Inv(s) && s.status == EXITED
    ensures Last(s).phase != Marked ==> s.exitCode == Last(s).result
    ensures s.held <==> Last(s).phase == Marked || Last(s).phase == Coded
  {
    assert ThreadOk(Last(s));
  }

  lemma FourSteps(s: State, r: nat)
    requires Inv(s) && !s.held && At(s, r, Returned)
    ensures var t := s.threads[r].(phase := Released, published := true);
            var s1 := s.(threads := s.threads[r := t], status := EXITED, exitCode := t.result, stained := false);
            Step(Step(Step(Step(s, ThreadLock(r)), ThreadMark(r)), ThreadCode(r)), ThreadUnlock(r)) == s1 && Inv(s1)
  {
    hide Inv;
    var a := Step(s, ThreadLock(r));
    var b := Step(a, ThreadMark(r));
    var d := Step(b, ThreadCode(r));
    StepInv(s, ThreadLock(r));
    StepInv(a, ThreadMark(r));
    StepInv(b, ThreadCode(r));
    StepInv(d, ThreadUnlock(r));
  }

  class OcreContainer {
    var status: Status
    var exitCode: int
    /** The handle of the thread created last; meaningless before the first. */
    var thread: nat
    const detached: bool
    const os: Platform
    /** The calls between two of their steps, and the history that `Lifecycle` keeps. */
    ghost var calls: map<nat, Pc>
    ghost var destroyed: bool
    ghost var stained: bool

    ghost function View(): State
      reads this, os
    {
      State(status, exitCode, os.threads, os.owner.Runner?, if os.attr then 1 else 0, os.sem, calls, detached,
            destroyed, stained)
    }

    ghost predicate Valid()
      reads this, os
    {
      && Inv(View())
      && |os.threads| == os.spawned
      && (os.spawned > 0 ==> thread == os.spawned - 1)
    }

    /** Nobody is inside a critical section. */
    ghost predicate Ready()
      reads this, os
    {
      Valid() && os.owner == Free
    }

    constructor (detached: bool)
      ensures Ready() && fresh(os) && View() == Created(detached)
    {
      os := new Platform();
      status, exitCode, thread := CREATED, 0, 0;
      calls, destroyed, stained := map[], false, false;
      this.detached := detached;
    }

    /** ocre_container_status_locked: joins an exited thread, for the first time, and releases its attribute.
        The join returns although the caller may hold the mutex. */
    method StatusUnderLock() returns (st: Status)
      requires Valid() && !os.owner.Runner?
      modifies this`status, os`threads, os`attr
      ensures Valid() && View() == StatusLocked(Settle(old(View()))) && st == status
    {
      ghost var s := View();
      SettleIsAStep(s);
      StatusLockedInv(Settle(s));
      if s.status == EXITED {
        AttributeIsLive(s);
      }
      hide Inv;
      if status == EXITED {
        os.Join(thread);
        os.AttrDestroy();
        status := STOPPED;
      }
      st := status;
    }

    /** The critical section of ocre_container_start. True when the thread was created. */
    method StartUnderLock(c: nat, attrOk: bool, mallocOk: bool, createOk: bool) returns (spawned: bool)
      requires Ready() && !destroyed && c !in calls
      modifies this, os
      ensures Ready() && View() == Step(Settle(old(View())), Start(c, attrOk, mallocOk, createOk))
      ensures spawned <==> Accepts(Settle(old(View()))) && attrOk && mallocOk && createOk
    {
      hide StatusLocked, Settle, Step, Inv, Enabled, StartFrom;
      StartFacts(View(), c, attrOk, mallocOk, createOk);
      os.Lock(Caller(c));
      var st := StatusUnderLock();
      if st == CREATED || st == STOPPED {
        AttributeIsFree(View());
      }
      spawned := Launch(c, st, attrOk, mallocOk, createOk);
      os.Unlock(Caller(c));
    }

    /** From the check of the status to the thread. Every way out but the last leaves no attribute behind. */
    method Launch(c: nat, st: Status, attrOk: bool, mallocOk: bool, createOk: bool) returns (spawned: bool)
      requires os.owner == Caller(c) && st == status && (st == CREATED || st == STOPPED ==> !os.attr)
      requires |os.threads| == os.spawned && (os.spawned > 0 ==> thread == os.spawned - 1)
      modifies this`status, this`thread, this`calls, os`attr, os`spawned, os`threads
      ensures |os.threads| == os.spawned && (os.spawned > 0 ==> thread == os.spawned - 1)
      ensures View() == StartFrom(old(View()), c, attrOk, mallocOk, createOk)
      ensures spawned <==> (st == CREATED || st == STOPPED) && attrOk && mallocOk && createOk
    {
      calls := calls[c := StartFailing];
      spawned := false;
      if st != CREATED && st != STOPPED {
        return;
      }
      os.AttrInit(attrOk);
      if !attrOk {
        return;
      }
      if !mallocOk {
        os.AttrDestroy();
        return;
      }
      status := RUNNING;
      var handle := os.Create(createOk);
      if !createOk {
        os.AttrDestroy();
        return;
      }
      thread := handle;
      calls := calls[c := StartWaiting(handle)];
      spawned := true;
    }

    /** error_status: the store made without the mutex, whoever holds it. A destroy that follows succeeds, and
        leaves a thread behind exactly if there is one. */
    method StoreError(c: nat)
      requires Valid() && Enabled(View(), StartError(c))
      modifies this`status, this`calls, this`stained
      ensures Valid() && View() == Step(old(View()), StartError(c))
      ensures DestroySucceeds(View()) && (stained <==> Unjoined(old(View())))
    {
      StepInv(View(), StartError(c));
      stained := stained || Unjoined(View());
      status := ERROR;
      calls := calls - {c};
    }

    /** The end of a start: the thread has posted the semaphore. */
    method AwaitStart(c: nat)
      requires Valid() && Enabled(View(), StartSem(c))
      modifies this`calls, os`sem
      ensures Valid() && View() == Step(old(View()), StartSem(c))
    {
      os.SemWait();
      calls := if detached then calls - {c} else calls[c := WaitNext];
    }

    /** The runtime tells that the container has started. */
    method PostStarted(r: nat)
      requires Valid() && Enabled(View(), ThreadPost(r))
      modifies os`sem, os`threads
      ensures Valid() && View() == Step(old(View()), ThreadPost(r))
    {
      StepInv(View(), ThreadPost(r));
      hide Inv;
      os.SemPost();
      os.Reach(r, os.threads[r].(posted := true));
    }

    /** ocre_container_wait; `written` is what goes to *status. A wait that finds RUNNING sleeps. */
    method WaitContainer(c: nat) returns (slept: bool, ret: int, written: Option<int>)
      requires Ready() && !destroyed && (c !in calls || calls[c] == WaitNext)
      modifies this, os
      ensures Ready() && View() == Step(Settle(old(View())), Wait(c))
      ensures slept <==> old(status) == RUNNING
      ensures !slept ==> ret == if old(status) == UNKNOWN || old(status) == CREATED then -1 else 0
      ensures written == if slept || ret != 0 then None else WaitWrites(Settle(old(View())))
      ensures written.Some? ==> status == STOPPED && !Unjoined(View()) && written.value == Last(View()).result
    {
      hide StatusLocked;
      ghost var s := View();
      WaitFacts(s, c);
      hide Inv, Step, Enabled;
      os.Lock(Caller(c));
      slept, ret, written := false, -1, None;
      if status == UNKNOWN || status == CREATED {
        calls := calls - {c};
        os.Unlock(Caller(c));
      } else if status == RUNNING {
        calls := calls[c := CondWaiting];
        slept := true;
        os.CondWait(Caller(c));
      } else {
        ret, written := FinishWait(c);
      }
    }

    /** ocre_container_wait behind pthread_cond_wait, whatever woke it. */
    method WakeUp(c: nat) returns (ret: int, written: Option<int>)
      requires Ready() && !destroyed && c in calls && calls[c] == CondWaiting
      modifies this, os
      ensures Ready() && View() == Step(Settle(old(View())), WaitWake(c))
      ensures ret == 0 && written == WaitWrites(Settle(old(View())))
      ensures written.Some? ==> status == STOPPED && !Unjoined(View()) && written.value == Last(View()).result
    {
      hide StatusLocked;
      WakeFacts(View(), c);
      hide Inv, Step, Enabled;
      os.Lock(Caller(c));
      ret, written := FinishWait(c);
    }

    method FinishWait(c: nat) returns (ret: int, written: Option<int>)
      requires Valid() && os.owner == Caller(c)
      modifies this, os
      ensures Ready() && View() == WaitFinish(Settle(old(View())), c)
      ensures ret == 0 && written == WaitWrites(Settle(old(View())))
    {
      hide StatusLocked;
      var st := StatusUnderLock();
      SettleKeeps(old(View()));
      hide Settle, WaitWrites;
      CallsDoNotMatter(View(), c);
      calls := calls - {c};
      ret := 0;
      written := if st == STOPPED then Some(exitCode) else None;
      os.Unlock(Caller(c));
    }

    method GetContainerStatus(c: nat) returns (st: Status)
      requires Ready() && !destroyed
      modifies this, os
      ensures Ready() && View() == Step(Settle(old(View())), GetStatus) && st == status && st != EXITED
    {
      SectionSteps(View(), c);
      SettleIsAStep(View());
      StatusLockedInv(Settle(View()));
      hide Inv, StatusLocked;
      os.Lock(Caller(c));
      st := StatusUnderLock();
      os.Unlock(Caller(c));
    }

    method PauseContainer(c: nat, ok: bool) returns (ret: int)
      requires Ready() && !destroyed
      modifies this`status, os`owner
      ensures Ready() && View() == Step(old(View()), Pause(ok)) && (ret == 0 <==> old(status) == RUNNING && ok)
    {
      StepInv(View(), Pause(ok));
      hide Inv;
      os.Lock(Caller(c));
      ret := -1;
      if status == RUNNING && ok {
        status := PAUSED;
        ret := 0;
      }
      os.Unlock(Caller(c));
    }

    method UnpauseContainer(c: nat, ok: bool) returns (ret: int)
      requires Ready() && !destroyed
      modifies this`status, os`owner
      ensures Ready() && View() == Step(old(View()), Unpause(ok)) && (ret == 0 <==> old(status) == PAUSED && ok)
    {
      StepInv(View(), Unpause(ok));
      hide Inv;
      os.Lock(Caller(c));
      ret := -1;
      if status == PAUSED && ok {
        status := RUNNING;
        ret := 0;
      }
      os.Unlock(Caller(c));
    }

    /** What the thread still does while a join waits that was made without the mutex: it leaves its critical
        section, if it is in it, and ends. */
    method ThreadFinishes(result: int)
      requires Valid() && !os.owner.Caller? && status == EXITED && result == os.threads[thread].result
      modifies this`exitCode, os`owner, os`threads
      ensures Ready() && View() == Finish(old(View()))
    {
      ghost var s := View();
      FinishIsRun(s);
      CodeAfterMark(s);
      hide Inv;
      if os.owner.Runner? {
        exitCode := result;
        os.Unlock(os.owner);
      }
      os.Reach(thread, os.threads[thread].(phase := Ended));
    }

    /** ocre_container_destroy, which takes no lock: no other call is under way, but the thread may be anywhere, in
        its critical section too. `result` is what the thread returned, if it has published. */
    method DestroyContainer(result: int) returns (ret: int)
      requires Valid() && !os.owner.Caller? && !destroyed && calls == map[]
      requires status == EXITED ==> result == os.threads[thread].result
      modifies this, os
      ensures Valid() && View() == Step(Finish(old(View())), Destroy)
      ensures ret == 0 <==> DestroySucceeds(Finish(old(View())))
      ensures ret == 0 ==> (Unjoined(View()) <==> old(stained)) && (os.attr <==> old(stained))
    {
      DestroyFacts(View());
      hide Inv, StatusLocked, Finish, Settle;
      var st := status;
      if st == EXITED {
        ThreadFinishes(result);
        st := StatusUnderLock();
      }
      if st != STOPPED && st != CREATED && st != ERROR {
        return -1;
      }
      destroyed := true;
      ret := 0;
    }

    /** The end of container_thread: one critical section with two writes. */
    method PublishExit(r: nat, result: int)
      requires Ready() && At(View(), r, Returned) && result == os.threads[r].result
      modifies this, os
      ensures Ready()
      ensures var s := Step(Step(old(View()), ThreadLock(r)), ThreadMark(r));
              View() == Step(Step(s, ThreadCode(r)), ThreadUnlock(r))
      ensures status == EXITED && exitCode == result
    {
      hide Inv, Step;
      ghost var s := View();
      FourSteps(s, r);
      LockForExit(r);
      MarkExited(r);
      WriteExitCode(r, result);
      UnlockAfterExit(r);
    }

    method LockForExit(r: nat)
      requires os.owner == Free && At(View(), r, Returned)
      modifies os`owner, os`threads
      ensures View() == Step(old(View()), ThreadLock(r)) && At(View(), r, Locked) && os.owner == Runner(r)
      ensures |os.threads| == old(|os.threads|) && os.threads[r].result == old(os.threads[r].result)
    {
      os.Lock(Runner(r));
      os.Reach(r, os.threads[r].(phase := Locked));
    }

    /** The status is written first, so a caller without the mutex can see EXITED with the older exit code. */
    method MarkExited(r: nat)
      requires os.owner == Runner(r) && At(View(), r, Locked)
      modifies this`status, this`stained, os`threads
      ensures View() == Step(old(View()), ThreadMark(r)) && At(View(), r, Marked)
      ensures |os.threads| == old(|os.threads|) && os.threads[r].result == old(os.threads[r].result)
    {
      status := EXITED;
      stained := false;
      os.Reach(r, os.threads[r].(phase := Marked, published := true));
    }

    method WriteExitCode(r: nat, result: int)
      requires os.owner == Runner(r) && At(View(), r, Marked) && result == os.threads[r].result
      modifies this`exitCode, os`threads
      ensures View() == Step(old(View()), ThreadCode(r)) && At(View(), r, Coded)
      ensures |os.threads| == old(|os.threads|)
    {
      exitCode := result;
      os.Reach(r, os.threads[r].(phase := Coded));
    }

    method UnlockAfterExit(r: nat)
      requires os.owner == Runner(r) && At(View(), r, Coded)
      modifies os`owner, os`threads
      ensures View() == Step(old(View()), ThreadUnlock(r)) && os.owner == Free
      ensures |os.threads| == old(|os.threads|)
    {
      os.Unlock(Runner(r));
      os.Reach(r, os.threads[r].(phase := Released));
    }
  }
}
