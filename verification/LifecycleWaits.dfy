/** Whom a wait waits for: when a container that counts as running can still publish an exit. */
module LifecycleWaits {
  import opened Lifecycle
  import opened LifecycleTheorems

  /** No thread is left to join, and the status lets no start through. */
  predicate Lifeless(s: State) {
    !Unjoined(s) && (s.status == RUNNING || s.status == PAUSED || s.status == ERROR)
  }

  lemma AllEnded(s: State, r: nat)
    requires Inv(s) && !Unjoined(s) && r < |s.threads|
    ensures s.threads[r].phase == Ended
  {
    assert ThreadOk(s.threads[r]);
  }

  lemma LifelessStep(s: State, op: Op)
    requires Inv(s) && Lifeless(s)
    ensures Lifeless(Step(s, op)) && Step(s, op).threads == s.threads
  {
    if IsThreadStep(op) && op.r < |s.threads| {
      AllEnded(s, op.r);
    }
    hide Inv, ThreadOk;
  }

  /** From there on no run spawns, joins or publishes anything. */
  lemma {:induction false} LifelessForever(s: State, ops: seq<Op>)
    requires Inv(s) && Lifeless(s)
    ensures var r := Run(s, ops); Inv(r) && Lifeless(r) && r.threads == s.threads
  {
    if ops != [] {
      var before, op := ops[..|ops| - 1], ops[|ops| - 1];
      LifelessForever(s, before);
      StepInv(Run(s, before), op);
      LifelessStep(Run(s, before), op);
    }
  }

  ghost predicate UnpublishedWhileBusy(s: State) {
    Busy(s.status) && Unjoined(s) ==> !Published(Last(s).phase)
  }

  lemma UnpublishedStep(s: State, op: Op)
    requires Inv(s) && UnpublishedWhileBusy(s)
    ensures UnpublishedWhileBusy(Step(s, op))
  {
    if Enabled(s, op) {
      if IsThreadStep(op) {
        UnpublishedThreadStep(s, op);
      } else {
        hide Inv, ThreadOk;
      }
    }
  }

  lemma UnpublishedThreadStep(s: State, op: Op)
    requires Inv(s) && UnpublishedWhileBusy(s) && Enabled(s, op) && IsThreadStep(op)
    ensures UnpublishedWhileBusy(Step(s, op))
  {
    ActiveIsLast(s, op.r);
    hide Inv, ThreadOk;
  }

  lemma {:induction false} EveryRunUnpublished(detached: bool, ops: seq<Op>)
    ensures UnpublishedWhileBusy(Run(Created(detached), ops))
  {
    if ops != [] {
      var before, op := ops[..|ops| - 1], ops[|ops| - 1];
      EveryRunUnpublished(detached, before);
      EveryRun(detached, before);
      UnpublishedStep(Run(Created(detached), before), op);
    }
  }

  /** A thread has published its exit between `s` and `s'`. */
  ghost predicate PublishedSince(s: State, s': State) {
    exists r :: 0 <= r < |s'.threads| && s'.threads[r].published && !(r < |s.threads| && s.threads[r].published)
  }

  function AfterReturn(s: State): State
    requires |s.threads| > 0
  {
    if Last(s).phase == Executing then Step(s, ThreadReturn(|s.threads| - 1, 0)) else s
  }

  lemma PublishingSteps(s: State)
    requires Inv(s) && !s.held && Unjoined(s) && !Published(Last(s).phase)
    ensures var r := |s.threads| - 1;
            PublishedSince(s, Step(Step(AfterReturn(s), ThreadLock(r)), ThreadMark(r)))
  {
    var r := |s.threads| - 1;
    assert ThreadOk(s.threads[r]);
    hide Inv, ThreadOk;
    var s' := Step(Step(AfterReturn(s), ThreadLock(r)), ThreadMark(r));
    assert |s'.threads| == |s.threads| && s'.threads[r].published;
  }

  /** A thread that has not published, with the mutex free, can go on and publish. */
  lemma PublishingRun(s: State) returns (ops: seq<Op>)
    requires Inv(s) && !s.held && Unjoined(s) && !Published(Last(s).phase)
    ensures PublishedSince(s, Run(s, ops))
  {
    PublishingSteps(s);
    hide Inv, Step, PublishedSince;
    var r := |s.threads| - 1;
    var first: seq<Op> := if Last(s).phase == Executing then [] + [ThreadReturn(r, 0)] else [];
    RunAppend(s, [], ThreadReturn(r, 0));
    RunAppend(s, first, ThreadLock(r));
    RunAppend(s, first + [ThreadLock(r)], ThreadMark(r));
    ops := first + [ThreadLock(r)] + [ThreadMark(r)];
  }

  /** A wait that finds RUNNING sleeps until a thread publishes its exit. In every reachable state in which a
      wait would sleep, some later run publishes one iff there is a thread that is not joined. */
  lemma SleeperIsWokenIff(detached: bool, before: seq<Op>, c: nat)
    requires var s := Run(Created(detached), before); s.status == RUNNING && Enabled(s, Wait(c))
    ensures var s := Run(Created(detached), before);
            (exists ops :: PublishedSince(s, Run(s, ops))) <==> Unjoined(s)
  {
    var s := Run(Created(detached), before);
    EveryRun(detached, before);
    EveryRunUnpublished(detached, before);
    hide Run, Step, Inv;
    if Unjoined(s) {
      var ops := PublishingRun(s);
    } else {
      forall ops
        ensures !PublishedSince(s, Run(s, ops))
      {
        LifelessForever(s, ops);
      }
    }
  }

  /** The start has set RUNNING, pthread_create has failed, and the mutex is free: a wait sleeps. Then ERROR is
      stored. No thread was ever there, and none will be. */
  lemma SleepsForever(ops: seq<Op>)
    ensures var s1 := Step(Created(true), Start(1, true, true, false));
            var s2 := Step(s1, Wait(2));
            var s3 := Step(s2, StartError(1));
            && s1.status == RUNNING && Enabled(s1, Wait(2))
            && s3.status == ERROR && s3.calls == map[2 := CondWaiting] && s3.threads == []
            && Run(s3, ops).threads == []
  {
    var s1 := Step(Created(true), Start(1, true, true, false));
    assert s1 == Created(true).(status := RUNNING, calls := map[1 := StartFailing]);
    var s2 := Step(s1, Wait(2));
    assert s2 == s1.(calls := map[1 := StartFailing, 2 := CondWaiting]);
    var s3 := Step(s2, StartError(1));
    assert s3.calls == map[2 := CondWaiting];
    assert Inv(s3) && Lifeless(s3);
    LifelessForever(s3, ops);
  }
}
