/** The invariants of every run of the event, messaging and timer interface. */
module ApiTheorems {
  import opened Wrappers
  import opened EventQueue
  import opened ApiSpec
  import opened ApiRuns
  import opened ApiCounts
  import opened ApiMemory
  import opened ApiPublish

  /** The modules that may have a timer: those that run, and those that ended without a cleanup. */
  function Holders(s: Sys): set<Module> { s.alive + s.plain }

  function Registered(s: Sys): set<Module> { s.alive - s.plain }

  /** Subscriptions and contexts belong to registered modules that are running; timer slots in use belong to running
      modules, or to modules that never were registered. */
  ghost predicate RefsOk(s: Sys) {
    && TimersAlive(s.st.timers, Holders(s)) && SubsAlive(s.st.subs, Registered(s))
    && s.st.counts.Keys <= Registered(s) && s.alive <= s.known && s.plain <= s.known
  }

  function Events(d: seq<(Module, Event)>): (r: seq<Event>)
    ensures |r| == |d| && forall i :: 0 <= i < |d| ==> r[i] == d[i].1
  {
    seq(|d|, i requires 0 <= i < |d| => d[i].1)
  }

  /** Nothing is lost, duplicated or reordered, and every delivery is to the owner. */
  ghost predicate FifoOk(s: Sys) {
    && s.accepted == Events(s.delivered) + s.st.queue
    && (forall i :: 0 <= i < |s.delivered| ==> s.delivered[i].1.owner == s.delivered[i].0)
    && |s.st.queue| <= QUEUE_SIZE
  }

  ghost predicate MemoryOk(s: Sys) {
    Separate(s.st.queue) && forall m :: Conserved(s.st, m, Held(s, m))
  }

  /** The start time of a running timer is its true start, cut to 32 bits. */
  ghost predicate ClockOk(s: Sys) {
    forall i :: 0 <= i < |s.st.timers| ==>
      var t := s.st.timers[i];
      t.interval <= 65535 && t.startTime < TWO_32
      && (t.running ==> i in s.started && t.startTime == s.started[i] % TWO_32)
  }

  // The queue

  lemma QueueFlow(s: State, op: Op)
    requires |s.queue| <= QUEUE_SIZE
    ensures var r := Call(s, op);
            && |r.st.queue| <= QUEUE_SIZE
            && (r.delivered.None? ==> r.st.queue == s.queue + r.accepted)
            && (r.delivered.Some? ==> op.OpGet? && r.accepted == [] && s.queue == [r.delivered.value] + r.st.queue
                                      && r.delivered.value.owner == op.m)
  {
    match op
    case OpCleanup(m) => CleanupEffect(s, m);
    case OpUnregister(m) => CleanupEffect(s, m);
    case OpPublish(m, topic, content, payload, len, offers) =>
      PublishReturn(s, topic, content, payload, len, offers);
      if topic != None && len > 0 {
        PublishEffect(s, |s.subs|, Message(topic.value, len, offers));
      }
    case OpGet(_) =>
    case OpFire(_, _) =>
    case _ =>
      QuietQueue(s, op);
      hide Call;
  }

  /** The calls that have nothing to do with the queue. */
  lemma QuietQueue(s: State, op: Op)
    requires !op.OpCleanup? && !op.OpUnregister? && !op.OpPublish? && !op.OpGet? && !op.OpFire?
    ensures var r := Call(s, op); r.st.queue == s.queue && r.accepted == [] && r.delivered == None
  {
    hide Subscribed, Stored, SetLive;
  }

  lemma FifoStep(s: Sys, op: Op)
    requires FifoOk(s)
    ensures FifoOk(Step(s, op))
  {
    hide Call;
    if Enabled(s, op) {
      QueueFlow(s.st, op);
      hide Enabled;
      var r, s' := Call(s.st, op), Step(s, op);
      if r.delivered.Some? {
        assert Events(s'.delivered) == Events(s.delivered) + [r.delivered.value];
      }
    }
  }

  /** Over every run: accepted = delivered followed by the queue, and every delivery is to its owner. */
  lemma {:induction false} EveryRunIsFifo(ops: seq<Op>)
    ensures FifoOk(Run(Start(), ops))
  {
    if ops != [] {
      EveryRunIsFifo(ops[..|ops| - 1]);
      FifoStep(Run(Start(), ops[..|ops| - 1]), ops[|ops| - 1]);
    }
  }

  // References and counters

  lemma TablesKept(s: State, op: Op)
    requires op.OpPublish? || op.OpGet? || op.OpFree?
    ensures var r := Call(s, op).st;
            r.timers == s.timers && r.subs == s.subs && r.subCount == s.subCount && r.counts == s.counts
  {
    match op
    case OpPublish(m, topic, content, payload, len, offers) =>
      if topic != None && len > 0 {
        PublishEffect(s, |s.subs|, Message(topic.value, len, offers));
      }
    case _ =>
  }

  ghost predicate TimersAlive(ts: seq<Timer>, alive: set<Module>) {
    forall i :: 0 <= i < |ts| && ts[i].inUse ==> ts[i].owner.Some? && ts[i].owner.value in alive
  }

  ghost predicate SubsAlive(bs: seq<Subscription>, alive: set<Module>) {
    forall i :: 0 <= i < |bs| && bs[i].active ==> bs[i].owner.Some? && bs[i].owner.value in alive
  }

  /** The calls on timers keep the subscriptions, and the timers belong to the living. */
  lemma TimerCallRefs(s: State, op: Op, alive: set<Module>)
    requires op.OpCreate? || op.OpDelete? || op.OpStart? || op.OpStop? || op.OpFire?
    requires TimersAlive(s.timers, alive) && (op.OpFire? || op.m in alive)
    ensures var r := Call(s, op).st; r.subs == s.subs && r.counts.Keys == s.counts.Keys && TimersAlive(r.timers, alive)
  {
    hide RemainingOf;
    if op.OpCreate? || op.OpDelete? {
      SlotCallRefs(s, op, alive);
    }
  }

  lemma SlotCallRefs(s: State, op: Op, alive: set<Module>)
    requires (op.OpCreate? || op.OpDelete?) && TimersAlive(s.timers, alive) && op.m in alive
    ensures var r := Call(s, op).st; r.subs == s.subs && r.counts.Keys == s.counts.Keys && TimersAlive(r.timers, alive)
  {
  }

  lemma SubscribeRefs(s: State, m: Module, topic: Option<string>, alive: set<Module>)
    requires SubsAlive(s.subs, alive) && s.counts.Keys <= alive
    ensures var r := Subscribe(s, m, topic).st;
            r.timers == s.timers && r.counts.Keys == s.counts.Keys && SubsAlive(r.subs, alive)
  {
    hide Subscribed, Stored;
  }

  lemma CleanupRefs(s: State, m: Module, holders: set<Module>, alive: set<Module>)
    requires TimersAlive(s.timers, holders) && SubsAlive(s.subs, alive)
    ensures var r := Cleanup(s, m);
            r.counts.Keys == s.counts.Keys && TimersAlive(r.timers, holders - {m}) && SubsAlive(r.subs, alive - {m})
  {
    CleanupEffect(s, m);
  }

  lemma RefsStep(s: Sys, op: Op)
    requires RefsOk(s)
    ensures RefsOk(Step(s, op))
  {
    if Enabled(s, op) {
      var st := s.st;
      match op
      case OpRegister(_, _) =>
      case OpEnter(_) =>
      case OpExit(_) =>
      case OpCleanup(m) => hide Cleanup; CleanupRefs(st, m, Holders(s), Registered(s));
      case OpUnregister(m) => hide Cleanup; CleanupRefs(st, m, Holders(s), Registered(s));
      case OpSubscribe(m, topic) => hide Subscribe; SubscribeRefs(st, m, topic, Registered(s));
      case OpPublish(_, _, _, _, _, _) => hide Call; TablesKept(st, op);
      case OpGet(_) => hide Call; TablesKept(st, op);
      case OpFree(_, _, _, _) => hide Call; TablesKept(st, op);
      case _ => hide Call; TimerCallRefs(st, op, Holders(s));
    }
  }

  /** A module without a running slot has counts of zero. */
  lemma NewcomerCounts(s: Sys, m: Module, ok: bool)
    requires CountsOk(s.st) && RefsOk(s) && m !in s.known
    ensures CountsOk(Register(s.st, m, ok))
  {
    CountNone(TimerFlags(s.st.timers, m));
    CountNone(SubFlags(s.st.subs, m));
  }

  lemma CountsStep(s: Sys, op: Op)
    requires CountsOk(s.st) && RefsOk(s)
    ensures CountsOk(Step(s, op).st)
  {
    hide Count, TimerFlags, SubFlags, ActiveFlags;
    if Enabled(s, op) {
      var st := s.st;
      match op
      case OpRegister(m, ok) => NewcomerCounts(s, m, ok);
      case OpEnter(_) =>
      case OpExit(_) =>
      case OpCleanup(m) => CleanupCounts(st, m);
      case OpUnregister(m) => CleanupCounts(st, m);
      case OpCreate(m, id, ok) => CreateCounts(st, m, id, ok);
      case OpDelete(m, id) =>
        if !BadId(st, id) && Owns(st.timers[id - 1], m) {
          ReleaseCounts(st, m, id - 1);
        }
      case OpStart(m, id, interval, p, now, ok) =>
        if Starts(st, op) {
          SameUser(st, id - 1, Call(st, op).st.timers[id - 1]);
        }
      case OpStop(m, id) =>
        if !BadId(st, id) && Owns(st.timers[id - 1], m) {
          SameUser(st, id - 1, st.timers[id - 1].(running := false, period := 0));
        }
      case OpFire(i, now) =>
        if i < |st.timers| && st.timers[i].inUse && st.timers[i].owner != None {
          var t := st.timers[i];
          SameUser(st, i, if t.periodic then t.(startTime := now % TWO_32) else t.(running := false));
        }
      case OpSubscribe(m, topic) => SubscribeCounts(st, m, topic);
      case OpPublish(_, _, _, _, _, _) => TablesKept(st, op);
      case OpGet(_) => TablesKept(st, op);
      case OpFree(_, _, _, _) => TablesKept(st, op);
    }
  }

  lemma StartCounts()
    ensures CountsOk(Start().st) && RefsOk(Start()) && ClockOk(Start())
  {
    CountNone(ActiveFlags(Initial().subs));
  }

  /** Over every run, each counter equals the slots it stands for. */
  lemma {:induction false} EveryRunCounts(ops: seq<Op>)
    ensures var s := Run(Start(), ops); CountsOk(s.st) && RefsOk(s)
  {
    if ops == [] {
      StartCounts();
    } else {
      EveryRunCounts(ops[..|ops| - 1]);
      RefsStep(Run(Start(), ops[..|ops| - 1]), ops[|ops| - 1]);
      CountsStep(Run(Start(), ops[..|ops| - 1]), ops[|ops| - 1]);
    }
  }

  // After unregistering

  lemma AcceptedFromAlive(s: Sys, op: Op)
    requires RefsOk(s)
    ensures forall k :: 0 <= k < |Call(s.st, op).accepted| ==> Call(s.st, op).accepted[k].owner in Holders(s)
  {
    match op
    case OpPublish(m, topic, content, payload, len, offers) =>
      if topic != None && len > 0 {
        PublishInSlotOrder(s.st, |s.st.subs|, Message(topic.value, len, offers));
      }
    case _ =>
  }

  /** Once a module is unregistered, no step of any later run queues an event for it. */
  lemma {:induction false} SilentAfterUnregister(s: Sys, m: Module, ops: seq<Op>)
    requires RefsOk(s) && m in s.known && m !in Holders(s)
    ensures var r := Run(s, ops);
            && RefsOk(r) && m in r.known && m !in Holders(r)
            && s.accepted <= r.accepted
            && forall k :: |s.accepted| <= k < |r.accepted| ==> r.accepted[k].owner != m
  {
    if ops != [] {
      var before, op := ops[..|ops| - 1], ops[|ops| - 1];
      SilentAfterUnregister(s, m, before);
      var r := Run(s, before);
      RefsStep(r, op);
      AcceptedFromAlive(r, op);
      hide Call;
    }
  }

  /** The same from the unregistering step of any run. */
  lemma NothingAfterUnregister(before: seq<Op>, m: Module, after: seq<Op>)
    requires m in Registered(Run(Start(), before))
    ensures var s := Run(Start(), before + [OpUnregister(m)]); var r := Run(s, after);
            s.accepted <= r.accepted && forall k :: |s.accepted| <= k < |r.accepted| ==> r.accepted[k].owner != m
  {
    EveryRunCounts(before);
    EveryRunCounts(before + [OpUnregister(m)]);
    assert (before + [OpUnregister(m)])[..|before|] == before;
    SilentAfterUnregister(Run(Start(), before + [OpUnregister(m)]), m, after);
  }

  // Memory

  /** If the step is a free, it frees no block of a message that is still queued. */
  ghost predicate FreesUnqueued(s: Sys, op: Op) {
    op.OpFree? && Enabled(s, op) ==> {op.t, op.c, op.p} !! Queued(s.st.queue, op.m)
  }

  lemma HeapKept(s: State, op: Op)
    requires !op.OpPublish? && !op.OpFree?
    ensures Call(s, op).st.heap == s.heap
    ensures !op.OpFire? && !op.OpGet? ==> Call(s, op).st.queue == s.queue
  {
    match op
    case OpCleanup(m) => CleanupEffect(s, m);
    case OpUnregister(m) => CleanupEffect(s, m);
    case _ =>
  }

  lemma TimerEventConserves(s: State, e: Event, m: Module, held: set<nat>)
    requires e.TimerEvent? && Separate(s.queue) && Conserved(s, m, held)
    ensures var r := s.(queue := s.queue + [e]); Separate(r.queue) && Conserved(r, m, held)
  {
    QueuedAppend(s.queue, e, m);
    SeparateAppend(s.queue, e);
  }

  lemma SameMemory(s: Sys, s': Sys)
    requires MemoryOk(s) && s'.st.heap == s.st.heap && s'.st.queue == s.st.queue && s'.held == s.held
    ensures MemoryOk(s')
  {
    forall m
      ensures Conserved(s'.st, m, Held(s', m))
    {
      assert Conserved(s.st, m, Held(s, m));
    }
  }

  lemma MemoryStep(s: Sys, op: Op)
    requires MemoryOk(s) && FreesUnqueued(s, op)
    ensures MemoryOk(Step(s, op))
  {
    if Enabled(s, op) {
      var s' := Step(s, op);
      hide Separate, Queued;
      if op.OpPublish? {
        PublishMemory(s, op);
      } else if op.OpFree? {
        forall m
          ensures Conserved(s'.st, m, Held(s', m))
        {
          assert Conserved(s.st, m, Held(s, m));
          FreeConserves(s.st, op.m, op.t, op.c, op.p, Held(s, op.m));
        }
      } else {
        hide Call;
        HeapKept(s.st, op);
        if op.OpFire? || op.OpGet? {
          QueueMemory(s, op);
        } else {
          SameMemory(s, s');
        }
      }
    }
  }

  lemma PublishMemory(s: Sys, op: Op)
    requires op.OpPublish? && MemoryOk(s) && Enabled(s, op)
    ensures MemoryOk(Step(s, op))
  {
    hide Separate, Queued;
    var s' := Step(s, op);
    if op.topic != None && op.payloadLen > 0 {
      var msg := Message(op.topic.value, op.payloadLen, op.offers);
      forall m
        ensures Conserved(s.st, m, if m in s.held then s.held[m] else {})
      {
        assert Conserved(s.st, m, Held(s, m));
      }
      PublishConserves(s.st, |s.st.subs|, msg, s.held);
      var r := PublishTo(s.st, |s.st.subs|, msg).0;
      hide PublishTo;
      forall m
        ensures Conserved(s'.st, m, Held(s', m))
      {
        assert Conserved(s.st, m, Held(s, m));
        assert Conserved(r, m, if m in s.held then s.held[m] else {});
      }
    } else {
      SameMemory(s, s');
    }
  }

  lemma QueueMemory(s: Sys, op: Op)
    requires (op.OpFire? || op.OpGet?) && MemoryOk(s) && Enabled(s, op)
    ensures MemoryOk(Step(s, op))
  {
    hide Separate, Queued;
    var s' := Step(s, op);
    if op.OpGet? {
      if s.st.queue != [] && s.st.queue[0].owner == op.m {
        assert Conserved(s.st, op.m, Held(s, op.m));
        GetConserves(s.st, op.m, op.m, Held(s, op.m));
        forall m
          ensures Conserved(s'.st, m, Held(s', m))
        {
          assert Conserved(s.st, m, Held(s, m));
          GetConserves(s.st, op.m, m, Held(s, m));
        }
      } else {
        SameMemory(s, s');
      }
    } else {
      if op.slot < |s.st.timers| && s.st.timers[op.slot].inUse && s.st.timers[op.slot].owner != None
         && |s.st.queue| < QUEUE_SIZE {
        var e := TimerEvent(s.st.timers[op.slot].owner.value, s.st.timers[op.slot].id);
        assert Conserved(s.st, 0, Held(s, 0));
        TimerEventConserves(s.st, e, 0, Held(s, 0));
        forall m
          ensures Conserved(s'.st, m, Held(s', m))
        {
          assert Conserved(s.st, m, Held(s, m));
          TimerEventConserves(s.st, e, m, Held(s, m));
        }
      } else {
        SameMemory(s, s');
      }
    }
  }
}
