/** When delivery stops for good: the reader looks at the head of the queue only. */
module ApiDelivery {
  import opened Wrappers
  import opened EventQueue
  import opened ApiSpec
  import opened ApiRuns
  import opened ApiTheorems

  ghost predicate OwnersKnown(s: Sys) {
    forall i :: 0 <= i < |s.st.queue| ==> s.st.queue[i].owner in s.known
  }

  /** What the proofs below need of a reachable state. */
  ghost predicate Sound(s: Sys) {
    RefsOk(s) && FifoOk(s) && OwnersKnown(s)
  }

  lemma SoundStep(s: Sys, op: Op)
    requires Sound(s)
    ensures Sound(Step(s, op))
  {
    RefsStep(s, op);
    FifoStep(s, op);
    if Enabled(s, op) {
      QueueFlow(s.st, op);
      AcceptedFromAlive(s, op);
      hide Call;
    }
  }

  lemma {:induction false} EveryRunIsSound(ops: seq<Op>)
    ensures Sound(Run(Start(), ops))
  {
    if ops != [] {
      EveryRunIsSound(ops[..|ops| - 1]);
      SoundStep(Run(Start(), ops[..|ops| - 1]), ops[|ops| - 1]);
    }
  }

  /** The owner of the head event is gone. */
  ghost predicate Blocked(s: Sys) {
    s.st.queue != [] && s.st.queue[0].owner !in s.alive
  }

  lemma BlockedStep(s: Sys, op: Op)
    requires Sound(s) && Blocked(s)
    ensures var s' := Step(s, op); s'.delivered == s.delivered && Blocked(s') && s'.st.queue[0] == s.st.queue[0]
  {
    if Enabled(s, op) {
      QueueFlow(s.st, op);
      hide Call;
    }
  }

  /** From then on no run delivers anything to anyone. */
  lemma {:induction false} BlockedForever(s: Sys, ops: seq<Op>)
    requires Sound(s) && Blocked(s)
    ensures var r := Run(s, ops); Sound(r) && Blocked(r) && r.delivered == s.delivered && r.st.queue[0] == s.st.queue[0]
  {
    if ops != [] {
      BlockedForever(s, ops[..|ops| - 1]);
      SoundStep(Run(s, ops[..|ops| - 1]), ops[|ops| - 1]);
      BlockedStep(Run(s, ops[..|ops| - 1]), ops[|ops| - 1]);
    }
  }

  /** After every run that leaves events queued: some run from there delivers an event iff the owner of the
      head event is still running. */
  lemma DeliveryStopsIff(before: seq<Op>)
    requires Run(Start(), before).st.queue != []
    ensures var s := Run(Start(), before);
            (exists ops :: Run(s, ops).delivered != s.delivered) <==> s.st.queue[0].owner in s.alive
  {
    var s := Run(Start(), before);
    EveryRunIsSound(before);
    if s.st.queue[0].owner in s.alive {
      var ops := [OpGet(s.st.queue[0].owner)];
      assert ops[..0] == [];
      assert Run(s, ops) == Step(s, ops[0]);
      assert |Run(s, ops).delivered| == |s.delivered| + 1;
    } else {
      forall ops
        ensures Run(s, ops).delivered == s.delivered
      {
        BlockedForever(s, ops);
      }
    }
  }
}
