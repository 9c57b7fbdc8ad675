/** Whose post releases a start. */
module LifecycleSemaphore {
  import opened Lifecycle
  import opened LifecycleTheorems

  /** The starts that wait for the semaphore. */
  function Waiting(s: State): set<nat> {
    set c | c in s.calls && s.calls[c].StartWaiting?
  }

  function Owed(t: Thread): nat { if t.posted then 0 else 1 }

  /** The number of threads that have not posted. */
  function Unposted(ts: seq<Thread>): nat {
    if ts == [] then 0 else Unposted(ts[..|ts| - 1]) + Owed(ts[|ts| - 1])
  }

  lemma {:induction false} UnpostedUpdate(ts: seq<Thread>, r: nat, t: Thread)
    requires r < |ts|
    ensures Unposted(ts[r := t]) + Owed(ts[r]) == Unposted(ts) + Owed(t)
  {
    var last := |ts| - 1;
    if r < last {
      UnpostedUpdate(ts[..last], r, t);
      assert ts[r := t][..last] == ts[..last][r := t];
    } else {
      assert ts[r := t][..last] == ts[..last];
    }
  }

  /** Every start that waits does so for a thread of its own. */
  ghost predicate OwnThreads(s: State) {
    && (forall c :: c in Waiting(s) ==> s.calls[c].own < |s.threads|)
    && (forall c, d :: c in Waiting(s) && d in Waiting(s) && c != d ==> s.calls[c].own != s.calls[d].own)
  }

  /** And it is matched by a post to take or by a thread that has not posted. */
  ghost predicate SemOk(s: State) {
    |Waiting(s)| == s.sem + Unposted(s.threads) && OwnThreads(s)
  }

  lemma OneMore(a: set<nat>, b: set<nat>, x: nat)
    requires b == a + {x} && x !in a
    ensures |b| == |a| + 1
  {
  }

  lemma StatusKeepsSem(s: State)
    ensures var s1 := StatusLocked(s);
            && s1.calls == s.calls && s1.sem == s.sem
            && |s1.threads| == |s.threads| && Unposted(s1.threads) == Unposted(s.threads)
  {
    if s.status == EXITED && |s.threads| > 0 {
      UnpostedUpdate(s.threads, |s.threads| - 1, Last(s).(joins := Last(s).joins + 1));
    }
  }

  /** What a step of the thread leaves in its slot. */
  function Stepped(s: State, op: Op): Thread
    requires IsThreadStep(op) && Enabled(s, op)
  {
    Step(s, op).threads[op.r]
  }

  lemma ThreadEffect(s: State, op: Op)
    requires IsThreadStep(op) && Enabled(s, op)
    ensures var s' := Step(s, op);
            && s'.calls == s.calls && op.r < |s.threads| && s'.threads == s.threads[op.r := Stepped(s, op)]
            && s'.sem + Owed(Stepped(s, op)) == s.sem + Owed(s.threads[op.r])
  {
  }

  lemma ThreadStepSem(s: State, op: Op)
    requires SemOk(s) && IsThreadStep(op)
    ensures SemOk(Step(s, op))
  {
    if Enabled(s, op) {
      var s' := Step(s, op);
      ThreadEffect(s, op);
      UnpostedUpdate(s.threads, op.r, Stepped(s, op));
      hide Step, Enabled, Unposted, Stepped;
      assert Waiting(s') == Waiting(s);
    }
  }

  lemma SpawnOwn(s: State, c: nat, s': State)
    requires OwnThreads(s) && c !in s.calls
    requires s'.calls == s.calls[c := StartWaiting(|s.threads|)] && |s'.threads| == |s.threads| + 1
    ensures OwnThreads(s') && Waiting(s') == Waiting(s) + {c}
  {
  }

  lemma SpawnSem(s: State, c: nat, s': State)
    requires SemOk(s) && c !in s.calls
    requires s'.calls == s.calls[c := StartWaiting(|s.threads|)] && s'.sem == s.sem
    requires s'.threads == s.threads + [Thread(Executing, 0, false, false, 0)]
    ensures SemOk(s')
  {
    SpawnOwn(s, c, s');
    hide OwnThreads;
    OneMore(Waiting(s), Waiting(s'), c);
    assert s'.threads[..|s.threads|] == s.threads;
  }

  /** A step that changes neither who waits nor who has posted. */
  lemma SameSem(s: State, s': State)
    requires SemOk(s) && s'.sem == s.sem && |s'.threads| == |s.threads| && Unposted(s'.threads) == Unposted(s.threads)
    requires Waiting(s') == Waiting(s) && forall c :: c in Waiting(s) ==> s'.calls[c] == s.calls[c]
    ensures SemOk(s')
  {
  }

  lemma ReleaseOwn(s: State, c: nat, s': State)
    requires OwnThreads(s) && c in Waiting(s) && s'.threads == s.threads
    requires s'.calls == s.calls - {c} || s'.calls == s.calls[c := WaitNext]
    ensures OwnThreads(s') && Waiting(s) == Waiting(s') + {c} && c !in Waiting(s')
  {
  }

  lemma ReleaseSem(s: State, c: nat)
    requires SemOk(s) && Enabled(s, StartSem(c))
    ensures SemOk(Step(s, StartSem(c)))
  {
    var s' := Step(s, StartSem(c));
    ReleaseOwn(s, c, s');
    hide OwnThreads, Enabled, Step;
    OneMore(Waiting(s'), Waiting(s), c);
  }

  lemma StartFromSem(s: State, c: nat, attrOk: bool, mallocOk: bool, createOk: bool)
    requires SemOk(s) && c !in s.calls
    ensures SemOk(StartFrom(s, c, attrOk, mallocOk, createOk))
  {
    hide SemOk, Unposted;
    var s' := StartFrom(s, c, attrOk, mallocOk, createOk);
    if s'.calls[c].StartWaiting? {
      SpawnSem(s, c, s');
    } else {
      SameSem(s, s');
    }
  }

  lemma StartSectionSem(s: State, op: Op)
    requires SemOk(s) && op.Start? && Enabled(s, op)
    ensures SemOk(Step(s, op))
  {
    hide StatusLocked, SemOk, Unposted, StartFrom;
    StatusKeepsSem(s);
    SameSemStatus(s, StatusLocked(s));
    StartFromSem(StatusLocked(s), op.c, op.attrOk, op.mallocOk, op.createOk);
  }

  lemma SameSemStatus(s: State, s1: State)
    requires SemOk(s) && s1.calls == s.calls && s1.sem == s.sem && |s1.threads| == |s.threads|
    requires Unposted(s1.threads) == Unposted(s.threads)
    ensures SemOk(s1)
  {
    assert Waiting(s1) == Waiting(s);
  }

  /** The calls of `s'` are those of `s`, but for call `c`, which waits for the semaphore in neither. */
  ghost predicate SameCallsBut(s: State, s': State, c: nat) {
    && (c in s.calls ==> !s.calls[c].StartWaiting?) && (c in s'.calls ==> !s'.calls[c].StartWaiting?)
    && forall d :: d != c ==> (d in s.calls <==> d in s'.calls) && (d in s.calls ==> s'.calls[d] == s.calls[d])
  }

  function Caller(op: Op): nat {
    match op
    case StartError(c) => c
    case Wait(c) => c
    case WaitWake(c) => c
    case _ => 0
  }

  lemma WaitEffect(s: State, c: nat)
    requires c in s.calls ==> !s.calls[c].StartWaiting?
    ensures SameCallsBut(s, WaitSection(s, c), c) && SameCallsBut(s, WaitFinish(s, c), c)
    ensures WaitSection(s, c).sem == s.sem && WaitFinish(s, c).sem == s.sem
    ensures WaitSection(s, c).threads == s.threads || WaitSection(s, c).threads == StatusLocked(s).threads
    ensures WaitFinish(s, c).threads == StatusLocked(s).threads
  {
    StatusKeepsSem(s);
    hide StatusLocked, Unposted;
  }

  lemma OtherEffect(s: State, op: Op)
    requires Enabled(s, op) && !IsThreadStep(op) && !op.Start? && !op.StartSem?
    ensures var s' := Step(s, op);
            && s'.sem == s.sem && (s'.threads == s.threads || s'.threads == StatusLocked(s).threads)
            && (s'.calls == s.calls || SameCallsBut(s, s', Caller(op)))
  {
    StatusKeepsSem(s);
    hide StatusLocked, JoinReturns, Unposted;
    match op
    case Wait(c) => WaitEffect(s, c); hide WaitSection, SameCallsBut;
    case WaitWake(c) => WaitEffect(s, c); hide WaitFinish, SameCallsBut;
    case StartError(c) =>
    case _ => hide SameCallsBut;
  }

  lemma SameWaiting(s: State, s': State, c: nat)
    requires s'.calls == s.calls || SameCallsBut(s, s', c)
    ensures Waiting(s') == Waiting(s) && forall d :: d in Waiting(s) ==> s'.calls[d] == s.calls[d]
  {
  }

  lemma OtherStepSem(s: State, op: Op)
    requires SemOk(s) && Enabled(s, op) && !IsThreadStep(op) && !op.Start? && !op.StartSem?
    ensures SemOk(Step(s, op))
  {
    hide StatusLocked, SemOk, Step, Enabled, Unposted, SameCallsBut, Waiting;
    OtherEffect(s, op);
    StatusKeepsSem(s);
    SameWaiting(s, Step(s, op), Caller(op));
    SameSem(s, Step(s, op));
  }

  lemma SemStep(s: State, op: Op)
    requires SemOk(s)
    ensures SemOk(Step(s, op))
  {
    hide SemOk;
    if IsThreadStep(op) {
      ThreadStepSem(s, op);
    } else if Enabled(s, op) {
      if op.StartSem? {
        ReleaseSem(s, op.c);
      } else if op.Start? {
        StartSectionSem(s, op);
      } else {
        OtherStepSem(s, op);
      }
    }
  }

  /** Over every run: starts waiting = posts not taken + threads that have not posted. */
  lemma {:induction false} EveryRunSem(detached: bool, ops: seq<Op>)
    ensures SemOk(Run(Created(detached), ops))
  {
    if ops != [] {
      EveryRunSem(detached, ops[..|ops| - 1]);
      SemStep(Run(Created(detached), ops[..|ops| - 1]), ops[|ops| - 1]);
    } else {
      assert Waiting(Created(detached)) == {};
    }
  }

  /** The thread of a start has posted. */
  predicate OwnPosted(s: State, c: nat)
    requires c in s.calls && s.calls[c].StartWaiting? && s.calls[c].own < |s.threads|
  {
    s.threads[s.calls[c].own].posted
  }

  /** In every reachable state in which a start can be released: it is released by its own run iff the posts that
      are missing are all owed by other threads. If it is the only one that waits, that is so. */
  lemma ReleasedByOwnRunIff(detached: bool, ops: seq<Op>, c: nat)
    requires Enabled(Run(Created(detached), ops), StartSem(c))
    ensures var s := Run(Created(detached), ops);
            && s.calls[c].own < |s.threads|
            && (OwnPosted(s, c) <==> Unposted(s.threads) - Owed(s.threads[s.calls[c].own]) == |Waiting(s)| - s.sem)
            && (Waiting(s) == {c} ==> OwnPosted(s, c) && s.sem == 1)
  {
    EveryRunSem(detached, ops);
    var s := Run(Created(detached), ops);
    hide Run;
    assert c in Waiting(s);
    var r := s.calls[c].own;
    UnpostedAt(s.threads, r);
    if Waiting(s) == {c} {
      assert |Waiting(s)| == 1;
    }
  }

  lemma {:induction false} UnpostedAt(ts: seq<Thread>, r: nat)
    requires r < |ts|
    ensures Unposted(ts) >= Owed(ts[r])
  {
    if r < |ts| - 1 {
      UnpostedAt(ts[..|ts| - 1], r);
    }
  }

  /** A container with these threads and these calls under way, nobody in a critical section. */
  function Moment(st: Status, code: int, threads: seq<Thread>, held: bool, sem: nat, calls: map<nat, Pc>): State {
    State(st, code, threads, held, 1, sem, calls, true, false, false)
  }

  const FIRST: map<nat, Pc> := map[1 := StartWaiting(0)]
  const BOTH: map<nat, Pc> := map[1 := StartWaiting(0), 2 := StartWaiting(1)]

  /** The first thread has ended without a post; the second one has posted. */
  const POSTED: State :=
    Moment(RUNNING, -1, [Thread(Ended, -1, false, true, 1), Thread(Executing, 0, true, false, 0)], false, 1, BOTH)

  /** The first thread fails to instantiate: it returns without a post, publishes its exit and ends. */
  function FirstFails(): State {
    var s1 := Step(Step(Created(true), Start(1, true, true, true)), ThreadReturn(0, -1));
    var s2 := Step(Step(s1, ThreadLock(0)), ThreadMark(0));
    Step(Step(Step(s2, ThreadCode(0)), ThreadUnlock(0)), ThreadEnd(0))
  }

  lemma FirstReturns()
    ensures Step(Step(Created(true), Start(1, true, true, true)), ThreadReturn(0, -1))
         == Moment(RUNNING, 0, [Thread(Returned, -1, false, false, 0)], false, 0, FIRST)
  {
    var s := Step(Created(true), Start(1, true, true, true));
    assert s == Moment(RUNNING, 0, [Thread(Executing, 0, false, false, 0)], false, 0, FIRST);
  }

  lemma FirstMarks()
    ensures var s := Moment(RUNNING, 0, [Thread(Returned, -1, false, false, 0)], false, 0, FIRST);
            var s1 := Step(Step(s, ThreadLock(0)), ThreadMark(0));
            s1 == Moment(EXITED, 0, [Thread(Marked, -1, false, true, 0)], true, 0, FIRST)
  {
    var s := Moment(RUNNING, 0, [Thread(Returned, -1, false, false, 0)], false, 0, FIRST);
    assert Step(s, ThreadLock(0)) == Moment(RUNNING, 0, [Thread(Locked, -1, false, false, 0)], true, 0, FIRST);
  }

  lemma FirstEnds()
    ensures var s := Moment(EXITED, 0, [Thread(Marked, -1, false, true, 0)], true, 0, FIRST);
            var s1 := Step(Step(Step(s, ThreadCode(0)), ThreadUnlock(0)), ThreadEnd(0));
            s1 == Moment(EXITED, -1, [Thread(Ended, -1, false, true, 0)], false, 0, FIRST)
  {
    var s := Moment(EXITED, 0, [Thread(Marked, -1, false, true, 0)], true, 0, FIRST);
    var s1 := Step(s, ThreadCode(0));
    assert s1 == Moment(EXITED, -1, [Thread(Coded, -1, false, true, 0)], true, 0, FIRST);
    assert Step(s1, ThreadUnlock(0)) == Moment(EXITED, -1, [Thread(Released, -1, false, true, 0)], false, 0, FIRST);
  }

  lemma SecondPosts()
    ensures var s := Moment(EXITED, -1, [Thread(Ended, -1, false, true, 0)], false, 0, FIRST);
            Step(Step(s, Start(2, true, true, true)), ThreadPost(1)) == POSTED
  {
    var s := Moment(EXITED, -1, [Thread(Ended, -1, false, true, 0)], false, 0, FIRST);
    var ended, fresh' := Thread(Ended, -1, false, true, 1), Thread(Executing, 0, false, false, 0);
    assert StatusLocked(s) == State(STOPPED, -1, [ended], false, 0, 0, FIRST, true, false, false);
    assert Step(s, Start(2, true, true, true)) == Moment(RUNNING, -1, [ended, fresh'], false, 0, BOTH);
  }

  /** A second start joins it and spawns another thread, whose post lets the first start return; the second one
      waits, with the semaphore at 0, although its own thread has posted. */
  lemma ReleasedByAnotherRun()
    ensures Step(Step(FirstFails(), Start(2, true, true, true)), ThreadPost(1)) == POSTED
    ensures Enabled(POSTED, StartSem(1)) && !OwnPosted(POSTED, 1)
    ensures Step(POSTED, StartSem(1)) == POSTED.(sem := 0, calls := map[2 := StartWaiting(1)])
  {
    assert BOTH - {1} == map[2 := StartWaiting(1)];
    assert Enabled(POSTED, StartSem(1)) && Step(POSTED, StartSem(1)) == POSTED.(sem := 0, calls := BOTH - {1});
    FirstReturns();
    FirstMarks();
    FirstEnds();
    SecondPosts();
  }
}
