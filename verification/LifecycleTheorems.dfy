/** What follows for every interleaving of callers with the container thread. */
module LifecycleTheorems {
  import opened Wrappers
  import opened Lifecycle

  /** At most one spawned thread is not joined; each is joined at most once, and only after it published
      EXITED and ended; a thread attribute is live exactly while its thread is not joined. */
  lemma ThreadsAreJoinedOnce(detached: bool, ops: seq<Op>)
    ensures var s := Run(Created(detached), ops);
            && (forall i :: 0 <= i < |s.threads| - 1 ==> s.threads[i].joins == 1)
            && (forall i :: 0 <= i < |s.threads| ==> s.threads[i].joins <= 1)
            && (forall i :: 0 <= i < |s.threads| && s.threads[i].joins > 0 ==>
                  s.threads[i].published && s.threads[i].phase == Ended)
            && s.attrs == (if Unjoined(s) then 1 else 0)
  {
    EveryRun(detached, ops);
    var s := Run(Created(detached), ops);
    forall i | 0 <= i < |s.threads|
      ensures ThreadOk(s.threads[i])
    {
    }
  }

  /** The step of a caller that joins: the thread is joined for the first time, and had published. */
  lemma JoinIsFirst(detached: bool, ops: seq<Op>)
    ensures var s := Run(Created(detached), ops);
            s.status == EXITED && JoinReturns(s) ==>
              Last(s).joins == 0 && Last(s).published && Last(StatusLocked(s)).joins == 1
  {
    EveryRun(detached, ops);
    var s := Run(Created(detached), ops);
    if s.status == EXITED {
      assert ThreadOk(Last(s));
    }
  }

  /** A caller that holds the mutex and finds EXITED joins a thread that needs the mutex no more: the
      thread has ended, or its one step left is to end. */
  lemma JoinUnderMutexReturns(detached: bool, ops: seq<Op>)
    ensures var s := Run(Created(detached), ops);
            s.status == EXITED && !s.held ==>
              && |s.threads| > 0 && !NeedsMutex(Last(s).phase) && Last(s).phase != Executing
              && (|| JoinReturns(s)
                  || (Enabled(s, ThreadEnd(|s.threads| - 1)) && JoinReturns(Step(s, ThreadEnd(|s.threads| - 1)))))
  {
    hide Run;
    EveryRun(detached, ops);
    var s := Run(Created(detached), ops);
    if s.status == EXITED && !s.held {
      EndIsLeft(s);
    }
  }

  lemma EndIsLeft(s: State)
    requires Inv(s) && s.status == EXITED && !s.held
    ensures |s.threads| > 0 && !NeedsMutex(Last(s).phase) && Last(s).phase != Executing
    ensures || JoinReturns(s)
            || (Enabled(s, ThreadEnd(|s.threads| - 1)) && JoinReturns(Step(s, ThreadEnd(|s.threads| - 1))))
  {
    hide ThreadOk;
  }

  /** The result of the run before the latest; 0 if there is none. */
  function ResultBefore(s: State): int {
    if |s.threads| > 1 then s.threads[|s.threads| - 2].result else 0
  }

  /** With status EXITED or STOPPED, the exit code is the result of the latest run, which has finished, except
      between the two writes of the thread: there it is still the result of the run before. */
  lemma ExitCodeIsLatest(detached: bool, ops: seq<Op>)
    ensures var s := Run(Created(detached), ops);
            s.status == STOPPED || s.status == EXITED ==>
              && |s.threads| > 0 && Last(s).published
              && s.exitCode == (if Last(s).phase == Marked then ResultBefore(s) else Last(s).result)
              && (Last(s).phase == Marked ==> s.held && s.status == EXITED)
  {
    EveryRun(detached, ops);
    var s := Run(Created(detached), ops);
    if s.status == STOPPED || s.status == EXITED {
      assert ThreadOk(Last(s));
    }
  }

  /** Between the two writes: the first run ends with 7, and the status is EXITED with exit code 0. */
  lemma OlderCodeIsSeen()
    ensures var s1 := Step(Step(Step(Created(true), Start(1, true, true, true)), ThreadPost(0)), StartSem(1));
            var s2 := Step(Step(Step(s1, ThreadReturn(0, 7)), ThreadLock(0)), ThreadMark(0));
            s2.status == EXITED && s2.exitCode == 0 && s2.threads == [Thread(Marked, 7, true, true, 0)]
  {
    assert Created(true) == Created(true).(calls := map[]);
    SuccessfulStart(1, map[]);
  }

  /** What a step of a waiting call writes to *status. */
  function Written(s: State, op: Op): Option<int> {
    if !Enabled(s, op) then None
    else match op
      case Wait(_) => if s.status == UNKNOWN || s.status == CREATED || s.status == RUNNING then None else WaitWrites(s)
      case WaitWake(_) => WaitWrites(s)
      case _ => None
  }

  /** A wait hands out a value exactly if it comes back, or need not sleep, with a container that has exited or is
      stopped. */
  lemma WaitWritesIff(s: State, op: Op)
    requires Inv(s)
    ensures Written(s, op).Some? <==>
            Enabled(s, op) && (op.Wait? || op.WaitWake?) && (s.status == EXITED || s.status == STOPPED)
  {
    hide ThreadOk;
  }

  /** Every value that wait hands out is the result of the latest run, which is over and joined. */
  lemma WaitReportsLatest(detached: bool, ops: seq<Op>, op: Op)
    ensures var s := Run(Created(detached), ops); var s' := Step(s, op);
            Written(s, op).Some? ==>
              && |s'.threads| > 0 && s'.status == STOPPED && !Unjoined(s')
              && Written(s, op).value == Last(s').result && Last(s').published
  {
    EveryRun(detached, ops);
    EveryRun(detached, ops + [op]);
    assert (ops + [op])[..|ops|] == ops;
    var s := Run(Created(detached), ops);
    if Written(s, op).Some? {
      var s' := Step(s, op);
      assert s'.status == STOPPED && s'.exitCode == s.exitCode && !s'.held;
      assert Last(s').joins == 1 && ThreadOk(Last(s'));
    }
  }

  // Pausing

  /** The same state but for a pause. */
  function Paused(s: State): State { if s.status == RUNNING then s.(status := PAUSED) else s }

  lemma PausedThreadStep(s: State, op: Op)
    requires IsThreadStep(op) && s.status != PAUSED
    ensures Step(Paused(s), op) == Paused(Step(s, op))
    ensures Step(s, op).status != PAUSED && Step(s, op).destroyed == s.destroyed
  {
  }

  lemma UnpauseBack(s: State)
    requires s.status != PAUSED && !s.destroyed && !s.held
    ensures Step(Paused(s), Unpause(true)) == s
    ensures s.status == RUNNING ==> Step(s, Pause(true)) == Paused(s)
  {
  }

  /** Whatever the thread does during a pause, the paused container follows the one that was not paused, and
      unpausing makes them equal: a thread that ends meanwhile is found EXITED, and unpausing leaves it so. */
  lemma {:induction false} PauseIsTransparent(s: State, steps: seq<Op>)
    requires s.status == RUNNING && !s.held && !s.destroyed
    requires forall n :: 0 <= n < |steps| ==> IsThreadStep(steps[n])
    ensures var with, without := Run(Step(s, Pause(true)), steps), Run(s, steps);
            && with == Paused(without) && without.status != PAUSED && !without.destroyed
            && (!without.held ==> Step(with, Unpause(true)) == without)
  {
    hide Step, Paused;
    UnpauseBack(s);
    if steps != [] {
      PauseIsTransparent(s, steps[..|steps| - 1]);
      PausedThreadStep(Run(s, steps[..|steps| - 1]), steps[|steps| - 1]);
    }
    if !Run(s, steps).held {
      UnpauseBack(Run(s, steps));
    }
  }

  /** A caller whose start has failed but has not stored ERROR yet. */
  ghost predicate SomeFailing(s: State) {
    exists c :: c in s.calls && s.calls[c] == StartFailing
  }

  lemma FailingKept(s: State, op: Op, c: nat)
    requires c in s.calls && s.calls[c] == StartFailing && !op.StartError?
    ensures c in Step(s, op).calls && Step(s, op).calls[c] == StartFailing
  {
    assert StatusLocked(s).calls == s.calls;
    hide StatusLocked, JoinReturns, SetThread;
    if IsThreadStep(op) {
      ThreadKeepsCalls(s, op);
    }
  }

  lemma ThreadKeepsCalls(s: State, op: Op)
    requires IsThreadStep(op)
    ensures Step(s, op).calls == s.calls
  {
  }

  predicate Busy(st: Status) { st == RUNNING || st == PAUSED }

  /** What makes a container busy, or keeps it so. */
  lemma BusyThreadStep(s: State, op: Op)
    requires IsThreadStep(op) && Busy(Step(s, op).status)
    ensures Busy(s.status) && (Unjoined(s) ==> Unjoined(Step(s, op)))
  {
  }

  lemma BusyStep(s: State, op: Op)
    requires Inv(s) && Busy(Step(s, op).status)
    ensures !op.StartError? || !Enabled(s, op)
    ensures Busy(s.status) && Unjoined(s) ==> Unjoined(Step(s, op))
    ensures !Busy(s.status) ==> op.Start? && (Unjoined(Step(s, op)) || SomeFailing(Step(s, op)))
  {
    hide ThreadOk;
    if IsThreadStep(op) {
      BusyThreadStep(s, op);
    } else if op.Start? && Enabled(s, op) {
      assert op.c in Step(s, op).calls;
    }
  }

  lemma RunningStep(s: State, op: Op)
    requires Inv(s) && (Busy(s.status) ==> Unjoined(s) || SomeFailing(s))
    ensures Busy(Step(s, op).status) ==> Unjoined(Step(s, op)) || SomeFailing(Step(s, op))
  {
    hide Step, Inv, Enabled;
    if Busy(Step(s, op).status) {
      BusyStep(s, op);
      if Busy(s.status) && SomeFailing(s) {
        var c :| c in s.calls && s.calls[c] == StartFailing;
        if op.StartError? {
          DisabledIsIdle(s, op);
        } else {
          FailingKept(s, op, c);
        }
      }
    }
  }

  lemma DisabledIsIdle(s: State, op: Op)
    requires !Enabled(s, op)
    ensures Step(s, op) == s
  {
  }

  /** A container that is RUNNING or PAUSED has a thread that is not joined yet, unless the start that made it
      so failed to create one and has not stored ERROR yet. */
  lemma {:induction false} RunningMeansThread(detached: bool, ops: seq<Op>)
    ensures var s := Run(Created(detached), ops);
            Busy(s.status) ==> Unjoined(s) || SomeFailing(s)
  {
    if ops != [] {
      var before := ops[..|ops| - 1];
      EveryRun(detached, before);
      RunningMeansThread(detached, before);
      RunningStep(Run(Created(detached), before), ops[|ops| - 1]);
    }
  }

  // Destroying

  /** A destroy that succeeds leaves a thread unjoined, and its attribute alive, exactly when an unlocked
      store of ERROR hit while the thread was not joined and nothing was published since. */
  lemma DestroyLeaksIff(detached: bool, ops: seq<Op>)
    ensures var s := Run(Created(detached), ops); var s' := Step(s, Destroy);
            Enabled(s, Destroy) && DestroySucceeds(s) ==>
              s'.destroyed && (Unjoined(s') <==> s.stained) && s'.attrs == (if s.stained then 1 else 0)
  {
    EveryRun(detached, ops);
    EveryRun(detached, ops + [Destroy]);
    assert (ops + [Destroy])[..|ops|] == ops;
  }

  ghost predicate BadStore(detached: bool, ops: seq<Op>, n: nat)
    requires n < |ops|
  {
    var s := Run(Created(detached), ops[..n]);
    ops[n].StartError? && Enabled(s, ops[n]) && Unjoined(s)
  }

  ghost predicate Publishes(detached: bool, ops: seq<Op>, n: nat)
    requires n < |ops|
  {
    ops[n].ThreadMark? && Enabled(Run(Created(detached), ops[..n]), ops[n])
  }

  /** `stained` in terms of the run alone. */
  ghost predicate StainedRun(detached: bool, ops: seq<Op>) {
    exists n ::
      && 0 <= n < |ops| && BadStore(detached, ops, n)
      && forall k :: n < k < |ops| ==> !Publishes(detached, ops, k)
  }

  lemma PrefixFacts(detached: bool, ops: seq<Op>, n: nat)
    requires n < |ops| - 1
    ensures BadStore(detached, ops[..|ops| - 1], n) == BadStore(detached, ops, n)
    ensures Publishes(detached, ops[..|ops| - 1], n) == Publishes(detached, ops, n)
  {
    assert ops[..|ops| - 1][..n] == ops[..n];
  }

  lemma {:induction false} StainedIsHistory(detached: bool, ops: seq<Op>)
    ensures Run(Created(detached), ops).stained <==> StainedRun(detached, ops)
  {
    if ops != [] {
      var before, op := ops[..|ops| - 1], ops[|ops| - 1];
      StainedIsHistory(detached, before);
      EveryRun(detached, before);
      StainStep(Run(Created(detached), before), op);
      assert Run(Created(detached), ops) == Step(Run(Created(detached), before), op);
      hide Run, Step, Enabled, Inv, StainedRun;
      StainedRunStep(detached, ops);
    }
  }

  lemma StainedRunStep(detached: bool, ops: seq<Op>)
    requires ops != []
    ensures StainedRun(detached, ops) <==>
            if BadStore(detached, ops, |ops| - 1) then true
            else StainedRun(detached, ops[..|ops| - 1]) && !Publishes(detached, ops, |ops| - 1)
  {
    hide BadStore, Publishes;
    var m := |ops| - 1;
    var before := ops[..m];
    forall n | 0 <= n < m
      ensures BadStore(detached, before, n) == BadStore(detached, ops, n)
      ensures Publishes(detached, before, n) == Publishes(detached, ops, n)
    {
      PrefixFacts(detached, ops, n);
    }
    if StainedRun(detached, before) && !Publishes(detached, ops, m) {
      var n :| 0 <= n < m && BadStore(detached, before, n) && forall k :: n < k < m ==> !Publishes(detached, before, k);
      assert BadStore(detached, ops, n) && forall k :: n < k < |ops| ==> !Publishes(detached, ops, k);
    }
    if StainedRun(detached, ops) && !BadStore(detached, ops, m) {
      var n :|
        && 0 <= n < |ops| && BadStore(detached, ops, n)
        && forall k :: n < k < |ops| ==> !Publishes(detached, ops, k);
      assert n < m && BadStore(detached, before, n) && forall k :: n < k < m ==> !Publishes(detached, before, k);
    }
  }

  lemma StainStep(s: State, op: Op)
    requires Inv(s)
    ensures Step(s, op).stained <==>
            if op.StartError? && Enabled(s, op) && Unjoined(s) then true
            else s.stained && !(op.ThreadMark? && Enabled(s, op))
  {
  }

  // Runs in which starts are neither rejected nor overlap a failing one

  ghost predicate NoneFailing(s: State) {
    forall c :: c in s.calls ==> s.calls[c] != StartFailing
  }

  ghost predicate CarefulAt(s: State, op: Op) {
    op.Start? && Enabled(s, op) ==> Accepts(s) && NoneFailing(s)
  }

  ghost predicate Careful(detached: bool, ops: seq<Op>) {
    forall n :: 0 <= n < |ops| ==> CarefulAt(Run(Created(detached), ops[..n]), ops[n])
  }

  lemma CarefulStep(s: State, op: Op)
    requires Inv(s) && !s.stained && (NoneFailing(s) || !Unjoined(s)) && CarefulAt(s, op)
    ensures var s' := Step(s, op); !s'.stained && (NoneFailing(s') || !Unjoined(s'))
  {
    StepInv(s, op);
    StainStep(s, op);
  }

  lemma {:induction false} CarefulRunsAreClean(detached: bool, ops: seq<Op>)
    requires Careful(detached, ops)
    ensures var s := Run(Created(detached), ops); !s.stained && (NoneFailing(s) || !Unjoined(s))
  {
    if ops != [] {
      var before := ops[..|ops| - 1];
      assert forall n :: 0 <= n < |before| ==> before[..n] == ops[..n] && before[n] == ops[n];
      CarefulRunsAreClean(detached, before);
      EveryRun(detached, before);
      CarefulStep(Run(Created(detached), before), ops[|ops| - 1]);
    }
  }

  /** In such a run, a destroy that returns 0 leaves every thread joined and every attribute released. */
  lemma DestroyIsClean(detached: bool, ops: seq<Op>)
    requires Careful(detached, ops)
    ensures var s := Run(Created(detached), ops); var s' := Step(s, Destroy);
            Enabled(s, Destroy) && DestroySucceeds(s) ==>
              s'.destroyed && s'.attrs == 0 && forall r :: 0 <= r < |s'.threads| ==> s'.threads[r].joins == 1
  {
    hide Run, Step, Enabled, DestroySucceeds, Careful, NoneFailing;
    CarefulRunsAreClean(detached, ops);
    DestroyLeaksIff(detached, ops);
    ThreadsAreJoinedOnce(detached, ops + [Destroy]);
    RunAppend(Created(detached), ops, Destroy);
  }

  lemma RunAppend(s: State, ops: seq<Op>, op: Op)
    ensures Run(s, ops + [op]) == Step(Run(s, ops), op)
  {
    assert (ops + [op])[..|ops|] == ops;
  }

  const FRESH_THREAD: Thread := Thread(Executing, 0, false, false, 0)
  const READY_THREAD: Thread := Thread(Executing, 0, true, false, 0)

  /** Thread 0 runs, its start has returned, and the calls `calls` are under way. */
  function Running(calls: map<nat, Pc>): State {
    State(RUNNING, 0, [READY_THREAD], false, 1, 0, calls, true, false, false)
  }

  lemma SuccessfulStart(c: nat, others: map<nat, Pc>)
    requires c !in others
    ensures var s := Created(true).(calls := others);
            Step(Step(Step(s, Start(c, true, true, true)), ThreadPost(0)), StartSem(c)) == Running(others)
  {
    var s := Created(true).(calls := others);
    var s1 := s.(status := RUNNING, attrs := 1, calls := others[c := StartWaiting(0)], threads := [FRESH_THREAD]);
    assert Step(s, Start(c, true, true, true)) == s1;
    var s2 := s1.(sem := 1, threads := [READY_THREAD]);
    assert Step(s1, ThreadPost(0)) == s2;
    assert others[c := StartWaiting(0)] - {c} == others;
  }

  lemma StoreThenDestroy(c: nat)
    ensures var s := Step(Running(map[c := StartFailing]), StartError(c));
            && Enabled(s, Destroy) && DestroySucceeds(s)
            && Step(s, Destroy).destroyed && Unjoined(Step(s, Destroy)) && Last(Step(s, Destroy)).phase == Executing
            && Step(s, Destroy).attrs == 1
  {
    assert map[c := StartFailing] - {c} == map[];
  }

  /** That no start is rejected is not enough: a start that fails on its attribute, overlapped by one that
      succeeds, stores ERROR over the running container, which destroy then takes apart. */
  lemma OverlappingStartsLeak()
    ensures var s1 := Step(Created(true), Start(1, false, true, true));
            var s2 := Step(Step(Step(s1, Start(2, true, true, true)), ThreadPost(0)), StartSem(2));
            var s3 := Step(s2, StartError(1));
            && Accepts(Created(true)) && Accepts(s1)
            && Enabled(s3, Destroy) && DestroySucceeds(s3)
            && Step(s3, Destroy).destroyed && Unjoined(Step(s3, Destroy)) && Last(Step(s3, Destroy)).phase == Executing
  {
    assert Step(Created(true), Start(1, false, true, true)) == Created(true).(calls := map[1 := StartFailing]);
    hide Step;
    SuccessfulStart(2, map[1 := StartFailing]);
    StoreThenDestroy(1);
  }

  /** A start that is rejected because the container runs does the same. */
  lemma RejectedStartLeaks()
    ensures var s1 := Step(Step(Step(Created(true), Start(1, true, true, true)), ThreadPost(0)), StartSem(1));
            var s2 := Step(Step(s1, Start(2, true, true, true)), StartError(2));
            && s1.status == RUNNING && !Accepts(s1)
            && Enabled(s2, Destroy) && DestroySucceeds(s2) && Unjoined(Step(s2, Destroy))
  {
    assert Step(Running(map[]), Start(2, true, true, true)) == Running(map[2 := StartFailing]);
    hide Step;
    assert Created(true) == Created(true).(calls := map[]);
    SuccessfulStart(1, map[]);
    StoreThenDestroy(2);
  }
}
