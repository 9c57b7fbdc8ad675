/** Modules that never were registered: nothing cleans up behind them. */
module ApiOrphans {
  import opened Wrappers
  import opened EventQueue
  import opened ApiSpec
  import opened ApiRuns
  import opened ApiCounts
  import opened ApiTheorems
  import opened ApiDelivery

  /** A timer slot whose owner has ended without a cleanup. */
  ghost predicate Orphaned(s: Sys, i: nat, m: Module) {
    i < |s.st.timers| && Owns(s.st.timers[i], m) && m in s.plain && m in s.known && m !in s.alive
  }

  lemma OrphanedCall(s: State, op: Op, i: nat, m: Module)
    requires i < |s.timers| && Owns(s.timers[i], m) && (op.OpFire? || op.m != m)
    ensures var r := Call(s, op).st; |r.timers| == |s.timers| && Owns(r.timers[i], m)
  {
    match op
    case OpCleanup(_) => hide Cleanup; CleanupEffect(s, op.m);
    case OpUnregister(_) => hide Cleanup; CleanupEffect(s, op.m);
    case OpSubscribe(_, _) => hide Subscribed, Stored;
    case OpPublish(_, _, _, _, _, _) => hide Call; TablesKept(s, op);
    case OpGet(_) => hide Call; TablesKept(s, op);
    case OpFree(_, _, _, _) => hide Call; TablesKept(s, op);
    case _ =>
  }

  lemma OrphanedStep(s: Sys, op: Op, i: nat, m: Module)
    requires Orphaned(s, i, m)
    ensures Orphaned(Step(s, op), i, m)
  {
    if Enabled(s, op) {
      hide Call;
      OrphanedCall(s.st, op, i, m);
    }
  }

  /** The slot stays in use in every later run, and nobody can have it: creating its timer answers -EBUSY, and every
      call on it is refused but to the owner, who is gone. */
  lemma {:induction false} OrphanedForever(s: Sys, i: nat, m: Module, ops: seq<Op>, k: Module, ok: bool)
    requires Orphaned(s, i, m)
    ensures Orphaned(Run(s, ops), i, m)
    ensures var r := Run(s, ops).st;
            && CreateTimer(r, k, i + 1, ok) == Only(r, -EBUSY)
            && (k != m ==> DeleteTimer(r, k, i + 1) == Only(r, -EINVAL))
  {
    if ops != [] {
      OrphanedForever(s, i, m, ops[..|ops| - 1], k, ok);
      OrphanedStep(Run(s, ops[..|ops| - 1]), ops[|ops| - 1], i, m);
    }
  }

  /** Its timer goes on queueing events; the first one that comes to the head of the queue stops delivery for
      everyone. */
  lemma OrphanBlocks(s: Sys, i: nat, m: Module, now: nat, ops: seq<Op>)
    requires Orphaned(s, i, m) && Sound(s) && s.st.queue == []
    ensures var s1 := Step(s, OpFire(i, now));
            Blocked(s1) && Run(s1, ops).delivered == s.delivered
  {
    var s1 := Step(s, OpFire(i, now));
    assert s1.st.queue == [] + [TimerEvent(m, s.st.timers[i].id)];
    SoundStep(s, OpFire(i, now));
    BlockedForever(s1, ops);
  }

  /** A run that orphans a slot. */
  lemma PlainModuleOrphans()
    ensures var s := Step(Step(Step(Start(), OpEnter(1)), OpCreate(1, 1, true)), OpExit(1));
            Orphaned(s, 0, 1)
  {
  }

  /** Exactly the slots of modules that ended without a cleanup outlive their owners: in every reachable state a
      slot in use belongs to a running module, or is orphaned. */
  lemma SlotsBelong(ops: seq<Op>, i: nat)
    ensures var s := Run(Start(), ops);
            i < |s.st.timers| && s.st.timers[i].inUse ==>
              && s.st.timers[i].owner.Some?
              && (s.st.timers[i].owner.value in s.alive || Orphaned(s, i, s.st.timers[i].owner.value))
  {
    EveryRunCounts(ops);
  }
}
