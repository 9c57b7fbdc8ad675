/** What the one-bit periodic flag of a timer slot does to a timer, over every run. */
module ApiTimers {
  import opened Wrappers
  import opened EventQueue
  import opened ApiSpec
  import opened ApiRuns
  import opened ApiCounts
  import opened ApiTheorems
  import opened ApiClock
  import opened ApiCalls

  /** The flag of a slot agrees with the OS timer that a start armed iff the argument is zero or odd. */
  lemma FlagAgrees(s: State, m: Module, id: int, interval: int, isPeriodic: int, now: nat)
    requires Starts(s, OpStart(m, id, interval, isPeriodic, now, true))
    ensures var t := StartTimer(s, m, id, interval, isPeriodic, now, true).st.timers[id - 1];
            (t.periodic <==> t.period > 0) <==> isPeriodic == 0 || isPeriodic % 2 == 1
  {
  }

  predicate StartsSlot(op: Op, i: nat) { op.OpStart? && op.id == i + 1 }

  lemma StoppedStep(s: Sys, op: Op, i: nat)
    requires i < |s.st.timers| && !s.st.timers[i].running && !StartsSlot(op, i)
    ensures var r := Step(s, op).st; |r.timers| == |s.st.timers| && !r.timers[i].running
  {
    if Enabled(s, op) && !op.OpStart? && !op.OpFire? {
      hide Call;
      QuietCall(s.st, op);
    }
  }

  /** A slot that is not running stays so, and reports 0, until it is started again, whatever expires. */
  lemma {:induction false} StaysStopped(s: Sys, i: nat, ops: seq<Op>)
    requires i < |s.st.timers| && !s.st.timers[i].running
    requires forall n :: 0 <= n < |ops| ==> !StartsSlot(ops[n], i)
    ensures var r := Run(s, ops).st;
            |r.timers| == |s.st.timers| && !r.timers[i].running && forall now :: RemainingOf(r.timers[i], now) == 0
  {
    if ops != [] {
      StaysStopped(s, i, ops[..|ops| - 1]);
      StoppedStep(Run(s, ops[..|ops| - 1]), ops[|ops| - 1], i);
    }
  }

  /** A stop that returns 0 means that the timer reports 0, or is refused, at every later time until it is started
      again, whoever asks and whoever owns the slot by then. */
  lemma StopMeansZero(s: Sys, m: Module, id: int, ops: seq<Op>, asker: Module, now: nat)
    requires m in s.alive && StopTimer(s.st, m, id).ret == 0
    requires forall n :: 0 <= n < |ops| ==> !StartsSlot(ops[n], id - 1)
    ensures var r := Run(Step(s, OpStop(m, id)), ops);
            GetRemaining(r.st, asker, id, now) == 0 || GetRemaining(r.st, asker, id, now) == -EINVAL
  {
    hide Step, Call, StopTimer, Run, Starts;
    StopStops(s, m, id);
    StaysStopped(Step(s, OpStop(m, id)), id - 1, ops);
  }

  lemma StopStops(s: Sys, m: Module, id: int)
    requires m in s.alive && StopTimer(s.st, m, id).ret == 0
    ensures var s1 := Step(s, OpStop(m, id)).st; 0 < id <= |s1.timers| && !s1.timers[id - 1].running
  {
  }

  /** The operations by which module `m` can give up or change its slot `i`. */
  predicate Touches(op: Op, m: Module, i: nat) {
    || ((op.OpStart? || op.OpStop? || op.OpDelete?) && op.id == i + 1)
    || ((op.OpCleanup? || op.OpUnregister?) && op.m == m)
  }

  /** A slot between its first expiry and the next change: it runs iff its flag says periodic. */
  predicate Settled(t: Timer, m: Module) { Owns(t, m) && t.running == t.periodic }

  lemma TablesStep(s: State, op: Op, m: Module, i: nat)
    requires i < |s.timers| && Settled(s.timers[i], m) && !Touches(op, m, i)
    requires op.OpCleanup? || op.OpUnregister?
    ensures var r := Call(s, op).st; |r.timers| == |s.timers| && r.timers[i] == s.timers[i]
  {
    CleanupEffect(s, op.m);
  }

  lemma SettledCall(s: State, op: Op, m: Module, i: nat)
    requires i < |s.timers| && Settled(s.timers[i], m) && !Touches(op, m, i)
    ensures var r := Call(s, op).st;
            |r.timers| == |s.timers| && r.timers[i] == s.timers[i].(startTime := r.timers[i].startTime)
  {
    match op
    case OpCleanup(_) => hide Call; TablesStep(s, op, m, i);
    case OpUnregister(_) => hide Call; TablesStep(s, op, m, i);
    case OpSubscribe(_, _) => hide Subscribed, Stored;
    case OpPublish(_, _, _, _, _, _) => hide Call; TablesKept(s, op);
    case OpGet(_) => hide Call; TablesKept(s, op);
    case OpFree(_, _, _, _) => hide Call; TablesKept(s, op);
    case _ =>
  }

  /** Until it is touched, such a slot changes in nothing but its start time. */
  lemma {:induction false} StaysSettled(s: Sys, m: Module, i: nat, ops: seq<Op>)
    requires i < |s.st.timers| && Settled(s.st.timers[i], m)
    requires forall n :: 0 <= n < |ops| ==> !Touches(ops[n], m, i)
    ensures var r := Run(s, ops).st;
            |r.timers| == |s.st.timers| && r.timers[i] == s.st.timers[i].(startTime := r.timers[i].startTime)
  {
    if ops != [] {
      var before, op := ops[..|ops| - 1], ops[|ops| - 1];
      StaysSettled(s, m, i, before);
      assert !Touches(op, m, i);
      hide Call;
      SettledCall(Run(s, before).st, op, m, i);
    }
  }

  /** In any reachable state, timer `id` is started with argument `isPeriodic` and expires once. However the run goes
      on, as long as its module does not touch it: the OS timer repeats iff the argument is not zero, the slot counts as
      running iff the argument is odd, and every expiry queues an event about timer `id`. So for an even argument
      other than zero the timer goes on firing while it reports 0. */
  lemma PeriodicOverRuns(before: seq<Op>, m: Module, id: int, interval: int, isPeriodic: int, start: nat, fire: nat,
                         ops: seq<Op>, now: nat)
    requires m in Run(Start(), before).alive
    requires Starts(Run(Start(), before).st, OpStart(m, id, interval, isPeriodic, start, true))
    requires forall n :: 0 <= n < |ops| ==> !Touches(ops[n], m, id - 1)
    ensures var s := Run(Start(), before);
            var s1 := Step(Step(s, OpStart(m, id, interval, isPeriodic, start, true)), OpFire(id - 1, fire));
            var r := Run(s1, ops);
            && |r.st.timers| == |s.st.timers|
            && var t := r.st.timers[id - 1];
            && t.period == (if isPeriodic != 0 then interval else 0)
            && (t.running <==> isPeriodic % 2 == 1)
            && (isPeriodic % 2 == 0 ==> RemainingOf(t, now) == 0)
            && (|r.st.queue| < QUEUE_SIZE ==>
                  Step(r, OpFire(id - 1, now)).accepted == r.accepted + [TimerEvent(m, id)])
  {
    EveryRunSlotIds(before);
    var s := Run(Start(), before);
    hide Run;
    PeriodicFrom(s, m, id, interval, isPeriodic, start, fire, ops, now);
  }

  lemma PeriodicFrom(s: Sys, m: Module, id: int, interval: int, isPeriodic: int, start: nat, fire: nat, ops: seq<Op>,
                     now: nat)
    requires m in s.alive && Starts(s.st, OpStart(m, id, interval, isPeriodic, start, true)) && SlotIds(s.st)
    requires forall n :: 0 <= n < |ops| ==> !Touches(ops[n], m, id - 1)
    ensures var s1 := Step(Step(s, OpStart(m, id, interval, isPeriodic, start, true)), OpFire(id - 1, fire));
            var r := Run(s1, ops);
            && |r.st.timers| == |s.st.timers|
            && var t := r.st.timers[id - 1];
            && t.period == (if isPeriodic != 0 then interval else 0)
            && (t.running <==> isPeriodic % 2 == 1)
            && (isPeriodic % 2 == 0 ==> RemainingOf(t, now) == 0)
            && (|r.st.queue| < QUEUE_SIZE ==>
                  Step(r, OpFire(id - 1, now)).accepted == r.accepted + [TimerEvent(m, id)])
  {
    var s1 := Step(Step(s, OpStart(m, id, interval, isPeriodic, start, true)), OpFire(id - 1, fire));
    FirstExpiry(s, m, id, interval, isPeriodic, start, fire);
    hide Step;
    StaysSettled(s1, m, id - 1, ops);
    var r := Run(s1, ops);
    if |r.st.queue| < QUEUE_SIZE {
      ExpiryQueues(r, m, id - 1, now);
    }
  }

  lemma FirstExpiry(s: Sys, m: Module, id: int, interval: int, isPeriodic: int, start: nat, fire: nat)
    requires m in s.alive && Starts(s.st, OpStart(m, id, interval, isPeriodic, start, true))
    ensures var s1 := Step(Step(s, OpStart(m, id, interval, isPeriodic, start, true)), OpFire(id - 1, fire));
            && |s1.st.timers| == |s.st.timers|
            && var t := s1.st.timers[id - 1];
            && Settled(t, m) && t.id == s.st.timers[id - 1].id
            && t.period == Period(interval, isPeriodic) && (t.periodic <==> isPeriodic % 2 == 1)
  {
  }

  lemma ExpiryQueues(s: Sys, m: Module, i: nat, now: nat)
    requires i < |s.st.timers| && Owns(s.st.timers[i], m) && |s.st.queue| < QUEUE_SIZE
    ensures Step(s, OpFire(i, now)).accepted == s.accepted + [TimerEvent(m, s.st.timers[i].id)]
  {
  }
}
