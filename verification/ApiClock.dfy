/** The time a timer reports, on a clock that wraps every 2^32 ms; and one slot per topic. */
module ApiClock {
  import opened Wrappers
  import opened EventQueue
  import opened ApiSpec
  import opened ApiRuns
  import opened ApiCounts
  import opened ApiTheorems

  function Positive(x: int): int { if x < 0 then 0 else x }

  lemma ElapsedMod(t0: nat, now: nat)
    requires t0 <= now
    ensures (now % TWO_32 - t0 % TWO_32) % TWO_32 == (now - t0) % TWO_32
  {
    var a, b := now / TWO_32, t0 / TWO_32;
    assert now % TWO_32 - t0 % TWO_32 == (now - t0) - TWO_32 * (a - b);
  }

  /** What a running timer reports, `t0` being the true uptime at its start: the interval less the true
      elapsed time, unless at least 2^32 ms went by and the clock is inside the interval again. */
  lemma RemainingExact(t: Timer, t0: nat, now: nat)
    requires t.running && t.interval <= 65535 && t.startTime == t0 % TWO_32 && t0 <= now
    ensures RemainingOf(t, now) == Positive(t.interval - (now - t0)) <==>
            now - t0 < TWO_32 || (now - t0) % TWO_32 >= t.interval
    ensures 0 <= RemainingOf(t, now) <= 65535
  {
    ElapsedMod(t0, now);
  }

  /** The OS promises that an expiry comes at most `lag` ms late. Then a slot that still counts as running is overdue
      by no more than that, and what it reports is true, with no bound on how long the timer has been in use. */
  lemma TimelyReportIsTrue(ops: seq<Op>, i: nat, now: nat, lag: nat)
    requires i < |Run(Start(), ops).st.timers| && lag < TWO_32 - 65535
    requires var s := Run(Start(), ops);
             s.st.timers[i].running && i in s.started ==>
               s.started[i] <= now <= s.started[i] + s.st.timers[i].interval + lag
    ensures var s := Run(Start(), ops); var t := s.st.timers[i];
            && (t.running ==> i in s.started)
            && RemainingOf(t, now) == if t.running then Positive(t.interval - (now - s.started[i])) else 0
  {
    ReportedTimeIsTrue(ops, i, now);
    EveryRunClock(ops);
  }

  /** An expiry that was lost: 2^32 ms after its start a timer of one second, which never fired, reports a full
      second. */
  lemma WrappedReport()
    ensures var s := Step(Step(Start(), OpRegister(1, true)), OpCreate(1, 1, true));
            var s := Step(s, OpStart(1, 1, 1000, 0, 0, true));
            && 0 in s.started && s.started[0] == 0
            && GetRemaining(s.st, 1, 1, TWO_32) == 1000 && Positive(1000 - (TWO_32 - s.started[0])) == 0
  {
  }

  /** The calls that set no clock: slots are kept, or stop running. */
  lemma QuietCall(s: State, op: Op)
    requires !op.OpStart? && !op.OpFire?
    ensures var r := Call(s, op).st;
            |r.timers| == |s.timers| && forall i :: 0 <= i < |s.timers| ==>
              && r.timers[i].interval == s.timers[i].interval && r.timers[i].startTime == s.timers[i].startTime
              && (r.timers[i].running ==> s.timers[i].running)
  {
    match op
    case OpCleanup(m) => hide Cleanup; CleanupEffect(s, m);
    case OpUnregister(m) => hide Cleanup; CleanupEffect(s, m);
    case OpSubscribe(m, topic) => hide Subscribed, Stored;
    case OpPublish(_, _, _, _, _, _) => hide Call; TablesKept(s, op);
    case OpGet(_) => hide Call; TablesKept(s, op);
    case OpFree(_, _, _, _) => hide Call; TablesKept(s, op);
    case _ =>
  }

  lemma ClockStep(s: Sys, op: Op)
    requires ClockOk(s)
    ensures ClockOk(Step(s, op))
  {
    if Enabled(s, op) && !op.OpStart? && !op.OpFire? {
      hide Call;
      QuietCall(s.st, op);
    }
  }

  lemma {:induction false} EveryRunClock(ops: seq<Op>)
    ensures ClockOk(Run(Start(), ops))
  {
    if ops == [] {
      StartCounts();
    } else {
      EveryRunClock(ops[..|ops| - 1]);
      ClockStep(Run(Start(), ops[..|ops| - 1]), ops[|ops| - 1]);
    }
  }

  /** In every run, a running timer reports max(0, interval - true elapsed) for every true elapsed time
      below 2^32 ms, and what any timer reports lies in 0..65535. */
  lemma ReportedTimeIsTrue(ops: seq<Op>, i: nat, now: nat)
    requires i < |Run(Start(), ops).st.timers|
    ensures var s := Run(Start(), ops); var t := s.st.timers[i];
            && 0 <= RemainingOf(t, now) <= 65535
            && (t.running ==> i in s.started)
            && (t.running && s.started[i] <= now < s.started[i] + TWO_32 ==>
                  RemainingOf(t, now) == Positive(t.interval - (now - s.started[i])))
  {
    EveryRunClock(ops);
    var s := Run(Start(), ops);
    var t := s.st.timers[i];
    if t.running && s.started[i] <= now {
      RemainingExact(t, s.started[i], now);
    }
  }

  // One slot per topic

  ghost predicate UniqueTopics(s: State) {
    forall i, j ::
      && 0 <= i < j < |s.subs|
      && s.subs[i].active && s.subs[j].active && s.subs[i].owner == s.subs[j].owner ==>
      s.subs[i].topic != s.subs[j].topic
  }

  /** Subscribing keeps the topics of a module distinct, except that a topic of 64 or more characters is
      not recognised in its stored form. */
  lemma SubscribeUnique(s: State, m: Module, topic: Option<string>)
    requires UniqueTopics(s)
    ensures UniqueTopics(Subscribe(s, m, topic).st) <==>
            !(&& topic.Some? && |topic.value| >= MAX_TOPIC_LEN && m in s.counts && !Subscribed(s.subs, m, topic.value)
              && Subscribed(s.subs, m, Stored(topic.value)) && FirstFree(s.subs) < |s.subs|)
  {
    var i, r := FirstFree(s.subs), Subscribe(s, m, topic).st;
    if topic.Some? && topic.value != "" && m in s.counts && !Subscribed(s.subs, m, topic.value) && i < |s.subs| {
      var b := r.subs[i];
      if Subscribed(s.subs, m, Stored(topic.value)) {
        var j :| 0 <= j < |s.subs| && IsFor(s.subs[j], m) && s.subs[j].topic == Stored(topic.value);
        assert r.subs[j] == s.subs[j] && j != i;
        assert !UniqueTopics(r);
      } else {
        assert UniqueTopics(r);
      }
    }
  }

  /** The same module subscribes twice to a topic of 64 characters, and holds two slots for it. */
  lemma LongTopicTwice(topic: string)
    requires |topic| == MAX_TOPIC_LEN
    ensures var s := Step(Step(Start(), OpRegister(1, true)), OpSubscribe(1, Some(topic)));
            var s := Step(s, OpSubscribe(1, Some(topic)));
            && IsFor(s.st.subs[0], 1) && IsFor(s.st.subs[1], 1) && s.st.subs[0].topic == s.st.subs[1].topic
            && s.st.counts[1].messaging == 2 && !UniqueTopics(s.st)
  {
    var s1 := Step(Step(Start(), OpRegister(1, true)), OpSubscribe(1, Some(topic)));
    assert FirstFree(Initial().subs) == 0;
    assert s1.st.subs == Initial().subs[0 := Subscription(topic[..63], Some(1), true)];
    assert s1.alive == {1} && s1.st.counts == map[1 := Counts(0, 1)];
    assert !Subscribed(s1.st.subs, 1, topic);
    assert s1.st.subs[1..][0] == s1.st.subs[1];
    assert FirstFree(s1.st.subs) == 1;
  }

  ghost predicate ShortTopics(ops: seq<Op>) {
    forall n :: 0 <= n < |ops| && ops[n].OpSubscribe? && ops[n].topic.Some? ==> |ops[n].topic.value| < MAX_TOPIC_LEN
  }

  lemma CleanupUnique(s: State, m: Module)
    requires UniqueTopics(s)
    ensures UniqueTopics(Cleanup(s, m))
  {
    CleanupEffect(s, m);
  }

  lemma UniqueStep(s: Sys, op: Op)
    requires UniqueTopics(s.st) && ShortTopics([op])
    ensures UniqueTopics(Step(s, op).st)
  {
    if Enabled(s, op) {
      match op
      case OpCleanup(m) => CleanupUnique(s.st, m);
      case OpUnregister(m) => CleanupUnique(s.st, m);
      case OpSubscribe(m, topic) =>
        assert topic.Some? ==> |[op][0].topic.value| < MAX_TOPIC_LEN;
        SubscribeUnique(s.st, m, topic);
      case OpPublish(_, _, _, _, _, _) => TablesKept(s.st, op);
      case OpGet(_) => TablesKept(s.st, op);
      case OpFree(_, _, _, _) => TablesKept(s.st, op);
      case _ =>
        hide UniqueTopics;
        SameSubs(s.st, op);
    }
  }

  lemma SameSubs(s: State, op: Op)
    requires || op.OpRegister? || op.OpEnter? || op.OpExit?
             || op.OpCreate? || op.OpDelete? || op.OpStart? || op.OpStop? || op.OpFire?
    ensures UniqueTopics(s) ==> UniqueTopics(Call(s, op).st)
  {
    assert Call(s, op).st.subs == s.subs;
  }

  /** With topics of at most 63 characters, in every run a module holds at most one slot per topic. */
  lemma {:induction false} EveryRunUniqueTopics(ops: seq<Op>)
    requires ShortTopics(ops)
    ensures UniqueTopics(Run(Start(), ops).st)
  {
    if ops != [] {
      var before, op := ops[..|ops| - 1], ops[|ops| - 1];
      EveryRunUniqueTopics(before);
      UniqueStep(Run(Start(), before), op);
    }
  }
}
