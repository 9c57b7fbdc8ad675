/** Messaging memory: who holds the blocks that publishing allocates. */
module ApiMemory {
  import opened EventQueue
  import opened ApiSpec

  /** The blocks of the queued events that belong to `m`. */
  function Queued(q: seq<Event>, m: Module): set<nat> {
    if q == [] then {} else Queued(q[1..], m) + if q[0].owner == m then Blocks(q[0]) else {}
  }

  function MessageCount(q: seq<Event>, m: Module): nat {
    if q == [] then 0 else MessageCount(q[1..], m) + if q[0].MessageEvent? && q[0].owner == m then 1 else 0
  }

  ghost predicate ThreeBlocks(e: Event) {
    e.MessageEvent? ==> e.topic != e.content && e.topic != e.payload && e.content != e.payload
  }

  /** Every queued message has three blocks of its own. */
  ghost predicate Separate(q: seq<Event>) {
    q == [] || (Separate(q[1..]) && ThreeBlocks(q[0]) && Blocks(q[0]) !! Queued(q[1..], q[0].owner))
  }

  /** The live blocks of `m` are those of its queued events and those it holds, and no block is both. */
  ghost predicate Conserved(s: State, m: Module, held: set<nat>) {
    Live(s, m) == Queued(s.queue, m) + held && Queued(s.queue, m) !! held
  }

  lemma {:induction false} QueuedAppend(q: seq<Event>, e: Event, m: Module)
    ensures Queued(q + [e], m) == Queued(q, m) + if e.owner == m then Blocks(e) else {}
  {
    if q == [] {
      assert (q + [e])[1..] == [];
    } else {
      QueuedAppend(q[1..], e, m);
      assert (q + [e])[1..] == q[1..] + [e];
    }
  }

  lemma {:induction false} SeparateAppend(q: seq<Event>, e: Event)
    requires Separate(q) && ThreeBlocks(e) && Blocks(e) !! Queued(q, e.owner)
    ensures Separate(q + [e])
  {
    if q == [] {
      assert (q + [e])[1..] == [];
    } else {
      SeparateAppend(q[1..], e);
      QueuedAppend(q[1..], e, q[0].owner);
      assert (q + [e])[1..] == q[1..] + [e];
    }
  }

  lemma ThreeOf(e: Event)
    requires ThreeBlocks(e) && e.MessageEvent?
    ensures |Blocks(e)| == 3
  {
    assert Blocks(e) == {e.topic, e.content, e.payload};
  }

  lemma {:induction false} QueuedSize(q: seq<Event>, m: Module)
    requires Separate(q)
    ensures |Queued(q, m)| == 3 * MessageCount(q, m)
  {
    if q != [] {
      QueuedSize(q[1..], m);
      if q[0].MessageEvent? && q[0].owner == m {
        ThreeOf(q[0]);
        assert |Queued(q[1..], m) + Blocks(q[0])| == |Queued(q[1..], m)| + |Blocks(q[0])|;
      }
    }
  }

  /** Exactly three live blocks for each queued message, plus what the module holds. */
  lemma ThreePerMessage(s: State, m: Module, held: set<nat>)
    requires Separate(s.queue) && Conserved(s, m, held)
    ensures |Live(s, m)| == 3 * MessageCount(s.queue, m) + |held|
  {
    QueuedSize(s.queue, m);
    assert |Queued(s.queue, m) + held| == |Queued(s.queue, m)| + |held|;
  }

  /** One slot of the publish loop. */
  lemma SendConserves(s: State, i: nat, msg: Message, m: Module, held: set<nat>)
    requires i < |s.subs| && Sends(s, i, msg) && Separate(s.queue)
    requires Conserved(s, m, held)
    ensures Conserved(Send(s, i, msg), m, held)
  {
    QueuedAppend(s.queue, EventFor(s, i, msg), m);
  }

  lemma SendSeparates(s: State, i: nat, msg: Message, held: set<nat>)
    requires i < |s.subs| && Sends(s, i, msg) && Separate(s.queue) && Conserved(s, s.subs[i].owner.value, held)
    ensures Separate(Send(s, i, msg).queue)
  {
    SeparateAppend(s.queue, EventFor(s, i, msg));
  }

  lemma {:induction false} PublishConserves(s: State, n: nat, msg: Message, held: map<Module, set<nat>>)
    requires n <= |s.subs| && Separate(s.queue) && forall m :: Conserved(s, m, if m in held then held[m] else {})
    ensures var r := PublishTo(s, n, msg).0;
            Separate(r.queue) && forall m :: Conserved(r, m, if m in held then held[m] else {})
  {
    if n > 0 {
      PublishConserves(s, n - 1, msg, held);
      var r := PublishTo(s, n - 1, msg).0;
      if Sends(r, n - 1, msg) {
        var o := r.subs[n - 1].owner.value;
        hide Conserved, Separate, Queued;
        SendSeparates(r, n - 1, msg, if o in held then held[o] else {});
        forall m
          ensures Conserved(Send(r, n - 1, msg), m, if m in held then held[m] else {})
        {
          SendConserves(r, n - 1, msg, m, if m in held then held[m] else {});
        }
      }
    }
  }

  /** Freeing keeps the books exactly when no freed block belongs to a message still in the queue. */
  lemma FreeConserves(s: State, k: Module, t: nat, c: nat, p: nat, held: set<nat>)
    requires Conserved(s, k, held)
    ensures Conserved(FreeData(s, k, t, c, p).st, k, held - {t, c, p}) <==> {t, c, p} !! Queued(s.queue, k)
  {
    var freed := {t, c, p};
    var r := FreeData(s, k, t, c, p).st;
    assert Live(r, k) == Live(s, k) - freed;
    if freed !! Queued(s.queue, k) {
      assert Live(r, k) == Queued(s.queue, k) + (held - freed);
    } else {
      var x :| x in freed && x in Queued(s.queue, k);
      assert x !in Live(r, k);
    }
  }

  /** Reading moves the blocks of the event from the queue to its owner. */
  lemma GetConserves(s: State, k: Module, m: Module, held: set<nat>)
    requires s.queue != [] && s.queue[0].owner == k && Separate(s.queue) && Conserved(s, m, held)
    ensures var e := s.queue[0];
            Conserved(GetEvent(s, k).st, m, if m == k then held + Blocks(e) else held)
            && Separate(GetEvent(s, k).st.queue)
  {
  }
}
