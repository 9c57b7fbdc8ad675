/** When messaging memory is conserved over a run, and what a module has to do for it. */
module ApiFrees {
  import opened Wrappers
  import opened EventQueue
  import opened ApiSpec
  import opened ApiRuns
  import opened ApiMemory
  import opened ApiPublish
  import opened ApiTheorems

  /** One free keeps the books of every module iff none of its blocks belongs to a queued message. */
  lemma FreeStepIff(s: Sys, op: Op)
    requires MemoryOk(s) && op.OpFree? && Enabled(s, op)
    ensures MemoryOk(Step(s, op)) <==> FreesUnqueued(s, op)
  {
    hide Separate, Queued;
    if FreesUnqueued(s, op) {
      MemoryStep(s, op);
    }
    assert Conserved(s.st, op.m, Held(s, op.m));
    FreeConserves(s.st, op.m, op.t, op.c, op.p, Held(s, op.m));
    var s' := Step(s, op);
    if MemoryOk(s') {
      assert Conserved(s'.st, op.m, Held(s', op.m));
    }
  }

  lemma MemoryStepIff(s: Sys, op: Op)
    requires MemoryOk(s)
    ensures MemoryOk(Step(s, op)) <==> FreesUnqueued(s, op)
  {
    if op.OpFree? && Enabled(s, op) {
      FreeStepIff(s, op);
    } else {
      MemoryStep(s, op);
    }
  }

  ghost predicate FreesOk(ops: seq<Op>) {
    forall n :: 0 <= n < |ops| ==> FreesUnqueued(Run(Start(), ops[..n]), ops[n])
  }

  ghost predicate AlwaysConserved(ops: seq<Op>) {
    forall n :: 0 <= n <= |ops| ==> MemoryOk(Run(Start(), ops[..n]))
  }

  /** Memory is conserved in every state of a run iff no free in it takes a block of a queued message. */
  lemma {:induction false} ConservedIff(ops: seq<Op>)
    ensures AlwaysConserved(ops) <==> FreesOk(ops)
  {
    if ops == [] {
      assert MemoryOk(Run(Start(), ops[..0]));
    } else {
      var before, op := ops[..|ops| - 1], ops[|ops| - 1];
      ConservedIff(before);
      Prefixes(ops);
      if AlwaysConserved(before) {
        assert before[..|before|] == before;
        MemoryStepIff(Run(Start(), before), op);
      }
    }
  }

  /** Both conditions, split at the last step. */
  lemma Prefixes(ops: seq<Op>)
    requires ops != []
    ensures var before := ops[..|ops| - 1];
            && (AlwaysConserved(ops) <==>
                  AlwaysConserved(before) && MemoryOk(Step(Run(Start(), before), ops[|ops| - 1])))
            && (FreesOk(ops) <==> FreesOk(before) && FreesUnqueued(Run(Start(), before), ops[|ops| - 1]))
  {
    hide MemoryOk, FreesUnqueued, Step;
    var before := ops[..|ops| - 1];
    assert ops[..|ops|] == ops;
    assert Run(Start(), ops) == Step(Run(Start(), before), ops[|ops| - 1]);
    forall n | 0 <= n <= |before|
      ensures before[..n] == ops[..n]
    {
    }
    if AlwaysConserved(before) && MemoryOk(Run(Start(), ops)) {
      forall n | 0 <= n <= |ops|
        ensures MemoryOk(Run(Start(), ops[..n]))
      {
        if n < |ops| {
          assert MemoryOk(Run(Start(), before[..n]));
        }
      }
    }
    if AlwaysConserved(ops) {
      forall n | 0 <= n <= |before|
        ensures MemoryOk(Run(Start(), before[..n]))
      {
        assert MemoryOk(Run(Start(), ops[..n]));
      }
      assert MemoryOk(Run(Start(), ops[..|ops|]));
    }
    if FreesOk(before) && FreesUnqueued(Run(Start(), before), ops[|ops| - 1]) {
      forall n | 0 <= n < |ops|
        ensures FreesUnqueued(Run(Start(), ops[..n]), ops[n])
      {
        if n < |before| {
          assert FreesUnqueued(Run(Start(), before[..n]), before[n]);
        }
      }
    }
    if FreesOk(ops) {
      forall n | 0 <= n < |before|
        ensures FreesUnqueued(Run(Start(), before[..n]), before[n])
      {
        assert FreesUnqueued(Run(Start(), ops[..n]), ops[n]);
      }
      assert FreesUnqueued(Run(Start(), ops[..|before|]), ops[|before|]);
    }
  }

  /** What a module can see for itself: it frees only blocks that were delivered to it and that it has not
      freed yet. */
  ghost predicate FreesOwn(s: Sys, op: Op) {
    op.OpFree? && Enabled(s, op) ==> {op.t, op.c, op.p} <= Held(s, op.m)
  }

  ghost predicate AllFreesOwn(ops: seq<Op>) {
    forall n :: 0 <= n < |ops| ==> FreesOwn(Run(Start(), ops[..n]), ops[n])
  }

  lemma OwnIsUnqueued(s: Sys, op: Op)
    requires MemoryOk(s) && FreesOwn(s, op)
    ensures FreesUnqueued(s, op)
  {
    if op.OpFree? && Enabled(s, op) {
      assert Conserved(s.st, op.m, Held(s, op.m));
    }
  }

  /** Over every run whose modules free only what they hold, each module's live blocks are exactly three per
      queued message of its own plus what it was handed and has not freed. */
  lemma {:induction false} EveryRunConservesMemory(ops: seq<Op>)
    requires AllFreesOwn(ops)
    ensures var s := Run(Start(), ops);
            MemoryOk(s) && forall m :: |Live(s.st, m)| == 3 * MessageCount(s.st.queue, m) + |Held(s, m)|
  {
    var s := Run(Start(), ops);
    if ops != [] {
      var before, op := ops[..|ops| - 1], ops[|ops| - 1];
      assert forall n :: 0 <= n < |before| ==> before[..n] == ops[..n] && before[n] == ops[n];
      EveryRunConservesMemory(before);
      assert FreesOwn(Run(Start(), before), op);
      OwnIsUnqueued(Run(Start(), before), op);
      MemoryStep(Run(Start(), before), op);
    }
    forall m
      ensures |Live(s.st, m)| == 3 * MessageCount(s.st.queue, m) + |Held(s, m)|
    {
      assert Conserved(s.st, m, Held(s, m));
      ThreePerMessage(s.st, m, Held(s, m));
    }
  }

  // A module that frees a block of a message it has not read yet

  lemma {:induction false} OneSubscriber(s: State, n: nat, msg: Message)
    requires 1 <= n <= |s.subs| && Sends(s, 0, msg) && forall j :: 1 <= j < |s.subs| ==> !s.subs[j].active
    ensures PublishTo(s, n, msg) == (Send(s, 0, msg), [EventFor(s, 0, msg)])
  {
    if n == 1 {
      assert PublishTo(s, 0, msg) == (s, []);
      assert [] + [EventFor(s, 0, msg)] == [EventFor(s, 0, msg)];
    } else {
      OneSubscriber(s, n - 1, msg);
    }
  }

  function Subscriber(): Sys { Step(Step(Start(), OpRegister(1, true)), OpSubscribe(1, Some("t"))) }

  function Published(): Sys {
    Step(Subscriber(), OpPublish(1, Some("t"), Some("x"), true, 1, (_: nat) => (1, 2, 3)))
  }

  lemma SubscriberState()
    ensures var s := Subscriber();
            && s.alive == {1} && s.held == map[] && s.st.queue == [] && s.st.heap == map[] && s.st.messageId == 0
            && s.st.subs == Initial().subs[0 := Subscription("t", Some(1), true)]
    ensures MemoryOk(Subscriber())
  {
    assert MemoryOk(Start());
    MemoryStep(Start(), OpRegister(1, true));
    MemoryStep(Step(Start(), OpRegister(1, true)), OpSubscribe(1, Some("t")));
  }

  lemma PublishedState()
    ensures var s := Published();
            s.alive == {1} && s.held == map[] && s.st.queue == [MessageEvent(1, 0, 1, 2, 3, 1)]
    ensures MemoryOk(Published())
  {
    SubscriberState();
    var s := Subscriber();
    hide Subscriber, MemoryOk, PublishTo;
    OneSubscriber(s.st, |s.st.subs|, Message("t", 1, (_: nat) => (1, 2, 3)));
    MemoryStep(s, OpPublish(1, Some("t"), Some("x"), true, 1, (_: nat) => (1, 2, 3)));
  }

  /** The module subscribes, a message is queued for it, and it frees the blocks at once: they are gone from its
      memory, and the queued event still names them. */
  lemma QueuedFreeBreaks()
    ensures var s := Step(Published(), OpFree(1, 1, 2, 3));
            !MemoryOk(s) && Live(s.st, 1) == {} && s.st.queue == [MessageEvent(1, 0, 1, 2, 3, 1)]
  {
    PublishedState();
    var p := Published();
    hide Published;
    assert Queued(p.st.queue, 1) == {1, 2, 3} by {
      assert p.st.queue[1..] == [];
    }
    FreeStepIff(p, OpFree(1, 1, 2, 3));
    assert Conserved(p.st, 1, Held(p, 1));
  }
}
