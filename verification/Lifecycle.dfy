/**
 The protocol of src/ocre/container.c between the callers of the container interface and the
 container's thread, as interleaved steps. A caller's critical section is one step, taken while the
 mutex is free; the thread's critical section is four steps, so that its two writes can be seen apart.
 A join completes only when the thread has ended. Lock, unlock and semaphore calls succeed; attribute
 initialisation, allocation and thread creation may fail.
 */
module Lifecycle {
  import opened Wrappers

  datatype Status = UNKNOWN | CREATED | RUNNING | PAUSED | EXITED | STOPPED | ERROR

  /** Where a container thread is. It needs the mutex from `Returned` until `Released`. */
  datatype Phase = Executing | Returned | Locked | Marked | Coded | Released | Ended

  datatype Thread = Thread(phase: Phase, result: int, posted: bool, published: bool, joins: nat)

  /** Calls that are between two of their steps. A start that waits for the semaphore remembers its own thread. */
  datatype Pc = StartFailing | StartWaiting(own: nat) | WaitNext | CondWaiting

  /** `threads` are all threads ever spawned; `container->thread` is the last one. `held` is the mutex in
      the hands of the container thread. `attrs` counts thread attributes not yet destroyed. `stained`
      is history: an unlocked store of ERROR hit while a thread was not joined, and no thread has
      published since. */
  datatype State = State(status: Status, exitCode: int, threads: seq<Thread>, held: bool, attrs: int, sem: nat,
                         calls: map<nat, Pc>, detached: bool, destroyed: bool, stained: bool)

  datatype Op =
    | ThreadPost(r: nat) | ThreadReturn(r: nat, result: int) | ThreadLock(r: nat) | ThreadMark(r: nat)
    | ThreadCode(r: nat) | ThreadUnlock(r: nat) | ThreadEnd(r: nat)
    | Start(c: nat, attrOk: bool, mallocOk: bool, createOk: bool)
    | StartError(c: nat) | StartSem(c: nat)
    | Wait(c: nat) | WaitWake(c: nat)
    | GetStatus | Kill | Pause(ok: bool) | Unpause(ok: bool)
    | Destroy

  function Created(detached: bool): State {
    State(CREATED, 0, [], false, 0, 0, map[], detached, false, false)
  }

  predicate Unjoined(s: State) { |s.threads| > 0 && s.threads[|s.threads| - 1].joins == 0 }

  function Last(s: State): Thread
    requires |s.threads| > 0
  {
    s.threads[|s.threads| - 1]
  }

  function SetThread(s: State, r: nat, t: Thread): State
    requires r < |s.threads|
  {
    s.(threads := s.threads[r := t])
  }

  predicate At(s: State, r: nat, p: Phase) { r < |s.threads| && s.threads[r].phase == p }

  // ocre_container_status_locked

  /** The join, if there is one, would return. */
  predicate JoinReturns(s: State) {
    s.status == EXITED ==> |s.threads| > 0 && Last(s).phase == Ended
  }

  function StatusLocked(s: State): State {
    if s.status == EXITED && |s.threads| > 0
    then SetThread(s, |s.threads| - 1, Last(s).(joins := Last(s).joins + 1)).(attrs := s.attrs - 1, status := STOPPED)
    else s
  }

  // ocre_container_start

  predicate Accepts(s: State) {
    StatusLocked(s).status == CREATED || StatusLocked(s).status == STOPPED
  }

  /** The section from the status on: a failure, or a new thread. */
  function StartFrom(s: State, c: nat, attrOk: bool, mallocOk: bool, createOk: bool): State {
    if (s.status != CREATED && s.status != STOPPED) || !attrOk || !mallocOk then s.(calls := s.calls[c := StartFailing])
    else if !createOk then s.(status := RUNNING, calls := s.calls[c := StartFailing])
    else s.(status := RUNNING, attrs := s.attrs + 1, calls := s.calls[c := StartWaiting(|s.threads|)],
            threads := s.threads + [Thread(Executing, 0, false, false, 0)])
  }

  function StartSection(s: State, c: nat, attrOk: bool, mallocOk: bool, createOk: bool): State {
    StartFrom(StatusLocked(s), c, attrOk, mallocOk, createOk)
  }

  // ocre_container_wait, from the lock or from waking up on

  function WaitFinish(s: State, c: nat): State {
    StatusLocked(s).(calls := StatusLocked(s).calls - {c})
  }

  /** What is written to *status. */
  function WaitWrites(s: State): Option<int> {
    if StatusLocked(s).status == STOPPED then Some(s.exitCode) else None
  }

  function WaitSection(s: State, c: nat): State {
    if s.status == UNKNOWN || s.status == CREATED then s.(calls := s.calls - {c})
    else if s.status == RUNNING then s.(calls := s.calls[c := CondWaiting])
    else WaitFinish(s, c)
  }

  predicate DestroySucceeds(s: State) {
    var st := StatusLocked(s).status; st == STOPPED || st == CREATED || st == ERROR
  }

  /** When a step can be taken. `Destroy` has the container to itself. */
  predicate Enabled(s: State, op: Op) {
    match op
    case ThreadPost(r) => At(s, r, Executing) && !s.threads[r].posted
    case ThreadReturn(r, _) => At(s, r, Executing)
    case ThreadLock(r) => At(s, r, Returned) && !s.held
    case ThreadMark(r) => At(s, r, Locked)
    case ThreadCode(r) => At(s, r, Marked)
    case ThreadUnlock(r) => At(s, r, Coded)
    case ThreadEnd(r) => At(s, r, Released)
    case Start(c, _, _, _) => !s.destroyed && c !in s.calls && !s.held && JoinReturns(s)
    case StartError(c) => !s.destroyed && c in s.calls && s.calls[c] == StartFailing
    case StartSem(c) => !s.destroyed && c in s.calls && s.calls[c].StartWaiting? && s.sem > 0
    case Wait(c) => !s.destroyed && (c !in s.calls || s.calls[c] == WaitNext) && !s.held && JoinReturns(s)
    case WaitWake(c) => !s.destroyed && c in s.calls && s.calls[c] == CondWaiting && !s.held && JoinReturns(s)
    case GetStatus => !s.destroyed && !s.held && JoinReturns(s)
    case Kill => !s.destroyed && !s.held
    case Pause(_) => !s.destroyed && !s.held
    case Unpause(_) => !s.destroyed && !s.held
    case Destroy => !s.destroyed && s.calls == map[] && JoinReturns(s)
  }

  function Step(s: State, op: Op): State {
    if !Enabled(s, op) then s
    else match op
      case ThreadPost(r) => SetThread(s, r, s.threads[r].(posted := true)).(sem := s.sem + 1)
      case ThreadReturn(r, result) => SetThread(s, r, s.threads[r].(phase := Returned, result := result))
      case ThreadLock(r) => SetThread(s, r, s.threads[r].(phase := Locked)).(held := true)
      case ThreadMark(r) =>
        SetThread(s, r, s.threads[r].(phase := Marked, published := true)).(status := EXITED, stained := false)
      case ThreadCode(r) => SetThread(s, r, s.threads[r].(phase := Coded)).(exitCode := s.threads[r].result)
      case ThreadUnlock(r) => SetThread(s, r, s.threads[r].(phase := Released)).(held := false)
      case ThreadEnd(r) => SetThread(s, r, s.threads[r].(phase := Ended))
      case Start(c, attrOk, mallocOk, createOk) => StartSection(s, c, attrOk, mallocOk, createOk)
      case StartError(c) => s.(status := ERROR, calls := s.calls - {c}, stained := s.stained || Unjoined(s))
      case StartSem(c) => s.(sem := s.sem - 1, calls := if s.detached then s.calls - {c} else s.calls[c := WaitNext])
      case Wait(c) => WaitSection(s, c)
      case WaitWake(c) => WaitFinish(s, c)
      case GetStatus => StatusLocked(s)
      case Kill => s
      case Pause(ok) => if s.status == RUNNING && ok then s.(status := PAUSED) else s
      case Unpause(ok) => if s.status == PAUSED && ok then s.(status := RUNNING) else s
      case Destroy => if DestroySucceeds(s) then StatusLocked(s).(destroyed := true) else StatusLocked(s)
  }

  function Run(s: State, ops: seq<Op>): State {
    if ops == [] then s else Step(Run(s, ops[..|ops| - 1]), ops[|ops| - 1])
  }

  // What every interleaving keeps

  predicate Published(p: Phase) { p == Marked || p == Coded || p == Released || p == Ended }

  predicate InSection(p: Phase) { p == Locked || p == Marked || p == Coded }

  predicate NeedsMutex(p: Phase) { p == Returned || InSection(p) }

  predicate CodeWritten(p: Phase) { p == Coded || p == Released || p == Ended }

  /** The result of the run whose exit code was written last; 0 before the first. */
  function LatestResult(s: State): int {
    if |s.threads| == 0 then 0
    else if CodeWritten(Last(s).phase) then Last(s).result
    else if |s.threads| > 1 then s.threads[|s.threads| - 2].result
    else 0
  }

  ghost predicate Inv(s: State) {
    && (forall r :: 0 <= r < |s.threads| - 1 ==> s.threads[r].joins == 1)
    && (forall r :: 0 <= r < |s.threads| ==> ThreadOk(s.threads[r]))
    && (s.status == EXITED ==> Unjoined(s) && Published(Last(s).phase))
    && (s.status == CREATED ==> s.threads == [])
    && (s.status == STOPPED ==> |s.threads| > 0 && !Unjoined(s))
    && (s.held <==> |s.threads| > 0 && InSection(Last(s).phase))
    && s.attrs == (if Unjoined(s) then 1 else 0)
    && s.exitCode == LatestResult(s)
    && (s.stained <==> s.status == ERROR && Unjoined(s))
  }

  ghost predicate ThreadOk(t: Thread) {
    && t.joins <= 1
    && (t.joins == 1 ==> t.phase == Ended)
    && (Published(t.phase) <==> t.published)
  }

  lemma StatusLockedInv(s: State)
    requires Inv(s) && !s.held && JoinReturns(s)
    ensures Inv(StatusLocked(s)) && StatusLocked(s).status != EXITED
  {
  }

  predicate IsThreadStep(op: Op) {
    op.ThreadPost? || op.ThreadReturn? || op.ThreadLock? || op.ThreadMark? || op.ThreadCode? || op.ThreadUnlock?
    || op.ThreadEnd?
  }

  /** Only the last thread can still be running. */
  lemma ActiveIsLast(s: State, r: nat)
    requires Inv(s) && r < |s.threads| && s.threads[r].phase != Ended
    ensures r == |s.threads| - 1 && Unjoined(s)
  {
    assert ThreadOk(s.threads[r]);
  }

  lemma QuietThreadInv(s: State, op: Op)
    requires Inv(s) && Enabled(s, op) && (op.ThreadPost? || op.ThreadReturn? || op.ThreadEnd?)
    ensures Inv(Step(s, op))
  {
    ActiveIsLast(s, op.r);
    assert ThreadOk(s.threads[op.r]);
    assert ThreadOk(Step(s, op).threads[op.r]);
    hide ThreadOk;
  }

  lemma LockingThreadInv(s: State, op: Op)
    requires Inv(s) && Enabled(s, op) && (op.ThreadLock? || op.ThreadMark? || op.ThreadCode? || op.ThreadUnlock?)
    ensures Inv(Step(s, op))
  {
    ActiveIsLast(s, op.r);
    assert ThreadOk(s.threads[op.r]);
    assert ThreadOk(Step(s, op).threads[op.r]);
    hide ThreadOk;
  }

  lemma SpawnInv(s: State, s': State)
    requires Inv(s) && (s.status == CREATED || s.status == STOPPED)
    requires s' == s.(status := RUNNING, attrs := 1, calls := s'.calls,
                      threads := s.threads + [Thread(Executing, 0, false, false, 0)])
    ensures Inv(s')
  {
    if s.status == STOPPED {
      assert ThreadOk(Last(s)) && Last(s).joins == 1 && Last(s).phase == Ended;
    }
    hide ThreadOk;
    NewThreadOk();
    forall r | 0 <= r < |s'.threads|
      ensures ThreadOk(s'.threads[r])
    {
      if r < |s.threads| {
        assert s'.threads[r] == s.threads[r];
      }
    }
  }

  /** A change of the status between states without a thread to join, or of the calls, keeps the invariant. */
  lemma QuietInv(s: State, s': State)
    requires Inv(s) && s' == s.(status := s'.status, calls := s'.calls, sem := s'.sem)
    requires s'.status == s.status || (s'.status == RUNNING && s.status != EXITED && s.status != ERROR)
             || (s'.status == PAUSED && s.status == RUNNING)
    ensures Inv(s')
  {
    hide ThreadOk;
  }

  lemma StartInv(s: State, c: nat, attrOk: bool, mallocOk: bool, createOk: bool)
    requires Inv(s) && !s.held && JoinReturns(s)
    ensures Inv(StartSection(s, c, attrOk, mallocOk, createOk))
  {
    StatusLockedInv(s);
    var s1 := StatusLocked(s);
    var s2 := StartSection(s, c, attrOk, mallocOk, createOk);
    if (s1.status == CREATED || s1.status == STOPPED) && attrOk && mallocOk && createOk {
      assert s1.attrs == 0;
      hide Inv, StatusLocked;
      SpawnInv(s1, s2);
    } else {
      hide Inv, StatusLocked;
      QuietInv(s1, s2);
    }
  }

  lemma NewThreadOk()
    ensures ThreadOk(Thread(Executing, 0, false, false, 0))
  {
  }

  lemma StepInv(s: State, op: Op)
    requires Inv(s)
    ensures Inv(Step(s, op))
  {
    if Enabled(s, op) {
      hide Inv, Enabled, Step;
      if op.ThreadPost? || op.ThreadReturn? || op.ThreadEnd? {
        QuietThreadInv(s, op);
      } else if IsThreadStep(op) {
        LockingThreadInv(s, op);
      } else {
        CallerStepInv(s, op);
      }
    }
  }

  lemma CallerStepInv(s: State, op: Op)
    requires Inv(s) && Enabled(s, op) && !IsThreadStep(op)
    ensures Inv(Step(s, op))
  {
    hide Inv, StatusLocked, StartSection;
    match op
    case Start(c, attrOk, mallocOk, createOk) => StartInv(s, c, attrOk, mallocOk, createOk);
    case StartError(c) => StoreInv(s, c);
    case Wait(c) => WaitInv(s, c);
    case WaitWake(c) => StatusLockedInv(s); QuietInv(StatusLocked(s), WaitFinish(s, c));
    case GetStatus => StatusLockedInv(s);
    case Destroy => DestroyInv(s);
    case _ => QuietInv(s, Step(s, op));
  }

  lemma WaitInv(s: State, c: nat)
    requires Inv(s) && !s.held && JoinReturns(s)
    ensures Inv(WaitSection(s, c))
  {
    StatusLockedInv(s);
    hide Inv, StatusLocked;
    if s.status == UNKNOWN || s.status == CREATED || s.status == RUNNING {
      QuietInv(s, WaitSection(s, c));
    } else {
      QuietInv(StatusLocked(s), WaitFinish(s, c));
    }
  }

  lemma StoreInv(s: State, c: nat)
    requires Inv(s)
    ensures Inv(s.(status := ERROR, calls := s.calls - {c}, stained := s.stained || Unjoined(s)))
  {
    hide ThreadOk;
  }

  /** Destroy reads the status without the mutex; by the time its join returns, the mutex is free. */
  lemma DestroyInv(s: State)
    requires Inv(s) && Enabled(s, Destroy)
    ensures Inv(Step(s, Destroy))
  {
  }

  lemma {:induction false} EveryRun(detached: bool, ops: seq<Op>)
    ensures Inv(Run(Created(detached), ops))
  {
    if ops != [] {
      EveryRun(detached, ops[..|ops| - 1]);
      StepInv(Run(Created(detached), ops[..|ops| - 1]), ops[|ops| - 1]);
    }
  }

  /** The state in which a join on an exited thread returns: the thread has taken the step it had left. */
  function Settle(s: State): State {
    if s.status == EXITED && |s.threads| > 0 then SetThread(s, |s.threads| - 1, Last(s).(phase := Ended)) else s
  }

  /** With the mutex free, waiting for a join is at most one step of the thread, and that step needs nothing
      of the caller who waits. */
  lemma SettleIsAStep(s: State)
    requires Inv(s) && !s.held
    ensures Settle(s) == s || Settle(s) == Step(s, ThreadEnd(|s.threads| - 1))
    ensures Inv(Settle(s)) && JoinReturns(Settle(s)) && !Settle(s).held
    ensures s.status == EXITED ==> Unjoined(s) && Published(Last(s).phase) && !NeedsMutex(Last(s).phase)
  {
    if s.status == EXITED {
      var last := |s.threads| - 1;
      assert ThreadOk(s.threads[last]);
      if s.threads[last].phase == Ended {
        assert s.threads[last := s.threads[last]] == s.threads;
      } else {
        assert s.threads[last].phase == Released;
        StepInv(s, ThreadEnd(last));
      }
    }
  }

  /** The state in which a join returns that holds no mutex: the thread has also left its critical section, if
      it was in it, and has written its exit code. */
  function Finish(s: State): State {
    if s.status == EXITED && |s.threads| > 0
    then
      var code := if Last(s).phase == Marked then Last(s).result else s.exitCode;
      SetThread(s, |s.threads| - 1, Last(s).(phase := Ended)).(exitCode := code, held := false)
    else s
  }

  /** The steps the thread has left. */
  function StepsLeft(s: State): seq<Op> {
    if s.status != EXITED || |s.threads| == 0 then []
    else
      var r := |s.threads| - 1;
      match Last(s).phase
      case Marked => [ThreadCode(r), ThreadUnlock(r), ThreadEnd(r)]
      case Coded => [ThreadUnlock(r), ThreadEnd(r)]
      case Released => [ThreadEnd(r)]
      case _ => []
  }

  lemma {:induction false} RunInv(s: State, ops: seq<Op>)
    requires Inv(s)
    ensures Inv(Run(s, ops))
  {
    if ops != [] {
      RunInv(s, ops[..|ops| - 1]);
      StepInv(Run(s, ops[..|ops| - 1]), ops[|ops| - 1]);
    }
  }

  lemma RunOfOne(s: State, a: Op)
    ensures Run(s, [a]) == Step(s, a)
  {
    assert [a][..0] == [];
  }

  lemma RunOfTwo(s: State, a: Op, b: Op)
    ensures Run(s, [a, b]) == Step(Step(s, a), b)
  {
    RunOfOne(s, a);
    assert [a, b][..1] == [a];
  }

  lemma RunOfThree(s: State, a: Op, b: Op, c: Op)
    ensures Run(s, [a, b, c]) == Step(Step(Step(s, a), b), c)
  {
    RunOfTwo(s, a, b);
    assert [a, b, c][..2] == [a, b];
  }

  /** Waiting for a join without the mutex is waiting for the steps the thread has left, none of which needs
      anything of the caller who waits. */
  lemma FinishIsRun(s: State)
    requires Inv(s)
    ensures Finish(s) == Run(s, StepsLeft(s)) && Inv(Finish(s)) && JoinReturns(Finish(s))
    ensures s.status == EXITED ==> Unjoined(s) && !Finish(s).held
  {
    RunInv(s, StepsLeft(s));
    if s.status == EXITED {
      var r := |s.threads| - 1;
      assert ThreadOk(s.threads[r]);
      hide Inv, Step, ThreadOk;
      FinishSteps(s);
    }
  }

  ghost predicate HeldByLast(s: State) {
    |s.threads| > 0 && (s.held <==> InSection(Last(s).phase))
  }

  lemma FinishCode(s: State)
    requires s.status == EXITED && HeldByLast(s) && Last(s).phase == Marked
    ensures var s1 := Step(s, ThreadCode(|s.threads| - 1));
            && s1.status == EXITED && HeldByLast(s1) && |s1.threads| == |s.threads|
            && Last(s1).phase == Coded && Finish(s1) == Finish(s)
  {
  }

  lemma FinishUnlock(s: State)
    requires s.status == EXITED && HeldByLast(s) && Last(s).phase == Coded
    ensures var s1 := Step(s, ThreadUnlock(|s.threads| - 1));
            && s1.status == EXITED && HeldByLast(s1) && |s1.threads| == |s.threads|
            && Last(s1).phase == Released && Finish(s1) == Finish(s)
  {
  }

  lemma FinishEnd(s: State)
    requires s.status == EXITED && HeldByLast(s) && Last(s).phase == Released
    ensures Step(s, ThreadEnd(|s.threads| - 1)) == Finish(s) && !Finish(s).held
  {
  }

  lemma FinishEnded(s: State)
    requires s.status == EXITED && HeldByLast(s) && Last(s).phase == Ended
    ensures Run(s, []) == Finish(s) && !Finish(s).held
  {
    assert s.threads[|s.threads| - 1 := Last(s)] == s.threads;
  }

  lemma ExitedLast(s: State)
    requires Inv(s) && s.status == EXITED
    ensures HeldByLast(s) && |s.threads| > 0 && Published(Last(s).phase)
  {
  }

  lemma FinishSteps(s: State)
    requires Inv(s) && s.status == EXITED
    ensures Finish(s) == Run(s, StepsLeft(s)) && !Finish(s).held
  {
    hide Inv, ThreadOk, Step, Run, Finish, HeldByLast;
    ExitedLast(s);
    var r := |s.threads| - 1;
    match Last(s).phase
    case Marked =>
      FinishCode(s);
      FinishUnlock(Step(s, ThreadCode(r)));
      FinishEnd(Step(Step(s, ThreadCode(r)), ThreadUnlock(r)));
      RunOfThree(s, ThreadCode(r), ThreadUnlock(r), ThreadEnd(r));
    case Coded =>
      FinishUnlock(s);
      FinishEnd(Step(s, ThreadUnlock(r)));
      RunOfTwo(s, ThreadUnlock(r), ThreadEnd(r));
    case Released =>
      FinishEnd(s);
      RunOfOne(s, ThreadEnd(r));
    case Ended =>
      FinishEnded(s);
  }
}
