/** When a start returns: at once for a detached container, and only behind a wait for any other. */
module LifecycleCalls {
  import opened Lifecycle

  /** The call is under way, and is not a start that failed. */
  predicate Pending(s: State, c: nat) {
    c in s.calls && !s.calls[c].StartFailing?
  }

  /** A step with which a waiting call comes back: its wait finds the container not running, or wakes up. */
  predicate ComesBack(s: State, op: Op, c: nat) {
    Enabled(s, op) && ((op == Wait(c) && s.status != RUNNING) || op == WaitWake(c))
  }

  lemma StatusKeepsCalls(s: State)
    ensures StatusLocked(s).calls == s.calls && StatusLocked(s).detached == s.detached
  {
  }

  lemma ThreadStepKeeps(s: State, op: Op)
    requires IsThreadStep(op)
    ensures Step(s, op).calls == s.calls && Step(s, op).detached == s.detached
  {
  }

  lemma PendingStep(s: State, op: Op, c: nat)
    requires !s.detached && Pending(s, c) && !ComesBack(s, op, c)
    ensures !Step(s, op).detached && Pending(Step(s, op), c)
  {
    StatusKeepsCalls(s);
    hide StatusLocked, JoinReturns, SetThread;
    if IsThreadStep(op) {
      ThreadStepKeeps(s, op);
    }
  }

  /** In no step of the run the call comes back. */
  ghost predicate NeverBack(s: State, c: nat, ops: seq<Op>) {
    forall n :: 0 <= n < |ops| ==> !ComesBack(Run(s, ops[..n]), ops[n], c)
  }

  lemma NeverBackBefore(s: State, c: nat, ops: seq<Op>)
    requires ops != [] && NeverBack(s, c, ops)
    ensures var last := |ops| - 1; NeverBack(s, c, ops[..last]) && !ComesBack(Run(s, ops[..last]), ops[last], c)
  {
    hide ComesBack, Run;
    var last := |ops| - 1;
    assert forall n :: 0 <= n < last ==> ops[..last][..n] == ops[..n] && ops[..last][n] == ops[n];
  }

  lemma {:induction false} StaysPending(s: State, c: nat, ops: seq<Op>)
    requires !s.detached && Pending(s, c)
    requires NeverBack(s, c, ops)
    ensures !Run(s, ops).detached && Pending(Run(s, ops), c)
  {
    hide ComesBack, NeverBack, Step, Pending;
    if ops != [] {
      var last := |ops| - 1;
      NeverBackBefore(s, c, ops);
      StaysPending(s, c, ops[..last]);
      PendingStep(Run(s, ops[..last]), ops[last], c);
    }
  }

  lemma {:induction false} DetachedNeverChanges(detached: bool, ops: seq<Op>)
    ensures Run(Created(detached), ops).detached == detached
  {
    if ops != [] {
      DetachedNeverChanges(detached, ops[..|ops| - 1]);
      DetachedStep(Run(Created(detached), ops[..|ops| - 1]), ops[|ops| - 1]);
    }
  }

  lemma DetachedStep(s: State, op: Op)
    ensures Step(s, op).detached == s.detached
  {
    StatusKeepsCalls(s);
    hide StatusLocked, JoinReturns;
  }

  /** The semaphore lets a start through: a detached one returns, any other goes on to its wait. */
  lemma ReleaseIff(detached: bool, before: seq<Op>, c: nat)
    requires Enabled(Run(Created(detached), before), StartSem(c))
    ensures var s := Step(Run(Created(detached), before), StartSem(c));
            && (c in s.calls <==> !detached)
            && (!detached ==> s.calls[c] == WaitNext)
  {
    DetachedNeverChanges(detached, before);
  }

  /** A start of a container that is not detached, once released, is under way in every later run until its wait comes
      back; until then the container cannot be destroyed. */
  lemma ForegroundStartWaits(before: seq<Op>, c: nat, ops: seq<Op>)
    requires Enabled(Run(Created(false), before), StartSem(c))
    requires NeverBack(Step(Run(Created(false), before), StartSem(c)), c, ops)
    ensures var r := Run(Step(Run(Created(false), before), StartSem(c)), ops);
            c in r.calls && !Enabled(r, Destroy)
  {
    hide Run, Step, Enabled, NeverBack;
    var s := Step(Run(Created(false), before), StartSem(c));
    ReleaseIff(false, before, c);
    DetachedNeverChanges(false, before);
    DetachedStep(Run(Created(false), before), StartSem(c));
    StaysPending(s, c, ops);
    PendingGuards(Run(s, ops), c);
  }

  lemma PendingGuards(s: State, c: nat)
    requires Pending(s, c)
    ensures c in s.calls && !Enabled(s, Destroy)
  {
  }

  /** And with that step it is over. */
  lemma ComingBackEnds(s: State, op: Op, c: nat)
    requires ComesBack(s, op, c)
    ensures c !in Step(s, op).calls
  {
    StatusKeepsCalls(s);
    hide StatusLocked, JoinReturns;
  }
}
