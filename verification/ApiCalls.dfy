/**
 What a caller of the interface sees, call by call and from one call to a later one: return codes with their exact
 conditions, and calls that answer each other.
 */
module ApiCalls {
  import opened Wrappers
  import opened EventQueue
  import opened ApiSpec
  import opened ApiRuns
  import opened ApiCounts
  import opened ApiPublish
  import opened ApiMemory
  import opened ApiTheorems
  import opened ApiClock

  // Timers

  /** The module holds timer `id`. */
  predicate Holds(s: State, m: Module, id: int) {
    1 <= id <= |s.timers| && s.timers[id - 1].inUse && s.timers[id - 1].owner == Some(m)
  }

  lemma CreateIff(s: State, m: Module, id: int, initOk: bool)
    ensures var r := CreateTimer(s, m, id, initOk);
            && (r.ret == 0 <==> 1 <= id <= |s.timers| && !s.timers[id - 1].inUse && initOk)
            && (r.ret == -16 <==> 1 <= id <= |s.timers| && s.timers[id - 1].inUse)
            && (r.ret == 0 || r.ret == -16 || r.ret == -22)
            && (r.ret == 0 ==> Holds(r.st, m, id) && r.st.timers[id - 1].id == id)
            && (r.ret != 0 ==> forall k, i :: Holds(r.st, k, i) <==> Holds(s, k, i))
  {
  }

  /** A timer that is deleted can be created again, by anyone; and only who holds it can delete it. */
  lemma DeleteIff(s: State, m: Module, id: int, k: Module)
    ensures var r := DeleteTimer(s, m, id);
            && (r.ret == 0 <==> Holds(s, m, id)) && (r.ret == 0 || (r.ret == -22 && r.st == s))
            && (r.ret == 0 ==> CreateTimer(r.st, k, id, true).ret == 0 && r.st.timers[id - 1].period == 0)
  {
  }

  lemma StartIff(s: State, m: Module, id: int, interval: int, isPeriodic: int, now: nat, startOk: bool)
    ensures var r := StartTimer(s, m, id, interval, isPeriodic, now, startOk);
            && (r.ret == 0 <==> Holds(s, m, id) && 1 <= interval <= 65535 && startOk)
            && (r.ret == 0 || r.ret == -22)
  {
  }

  lemma StopIff(s: State, m: Module, id: int)
    ensures var r := StopTimer(s, m, id);
            && r.ret == (if Holds(s, m, id) then 0 else -22)
            && (r.ret == 0 ==> Holds(r.st, m, id) && !r.st.timers[id - 1].running && r.st.timers[id - 1].period == 0)
  {
  }

  /** From its start on a timer reports what is left of the interval it was given, whatever the clock shows. */
  lemma StartReports(s: State, m: Module, id: int, interval: int, isPeriodic: int, now: nat, d: nat)
    requires Holds(s, m, id) && 1 <= interval <= 65535 && d < TWO_32
    ensures GetRemaining(StartTimer(s, m, id, interval, isPeriodic, now, true).st, m, id, now + d)
         == if d < interval then interval - d else 0
  {
    var t := StartTimer(s, m, id, interval, isPeriodic, now, true).st.timers[id - 1];
    RemainingExact(t, now, now + d);
  }

  /** Who does not hold the timer is refused. */
  lemma RemainingIff(s: State, m: Module, id: int, now: nat)
    ensures GetRemaining(s, m, id, now) == -22 <==> !Holds(s, m, id)
  {
  }

  // The reader

  lemma GetIff(s: State, m: Module)
    ensures var r := GetEvent(s, m);
            && (r.ret == -42 <==> s.queue == [])
            && (r.ret == -1 <==> s.queue != [] && s.queue[0].owner != m)
            && (r.ret == 0 <==> s.queue != [] && s.queue[0].owner == m)
            && (r.ret == 0 ==> r.delivered == Some(s.queue[0]) && [s.queue[0]] + r.st.queue == s.queue)
            && (r.ret != 0 ==> r.delivered == None && r.st == s)
  {
  }

  lemma FreeExactly(s: State, m: Module, t: nat, c: nat, p: nat, k: Module, x: nat)
    ensures x in Live(FreeData(s, m, t, c, p).st, k) <==>
            x in Live(s, k) && !(k == m && (x == t || x == c || x == p))
  {
  }

  // Timers and the reader, over runs

  /** A slot in use holds the id that names it. */
  ghost predicate SlotIds(s: State) {
    forall i :: 0 <= i < |s.timers| && s.timers[i].inUse ==> s.timers[i].id == i + 1
  }

  lemma SlotIdsCall(s: State, op: Op)
    requires SlotIds(s)
    ensures SlotIds(Call(s, op).st)
  {
    match op
    case OpCleanup(m) => hide Cleanup; CleanupEffect(s, m);
    case OpUnregister(m) => hide Cleanup; CleanupEffect(s, m);
    case OpSubscribe(_, _) => hide Subscribed, Stored;
    case OpPublish(_, _, _, _, _, _) => hide Call; TablesKept(s, op);
    case OpGet(_) => hide Call; TablesKept(s, op);
    case OpFree(_, _, _, _) => hide Call; TablesKept(s, op);
    case _ =>
  }

  lemma {:induction false} EveryRunSlotIds(ops: seq<Op>)
    ensures SlotIds(Run(Start(), ops).st)
  {
    if ops != [] {
      EveryRunSlotIds(ops[..|ops| - 1]);
      hide Call;
      SlotIdsCall(Run(Start(), ops[..|ops| - 1]).st, ops[|ops| - 1]);
    }
  }

  /** In every reachable state, the expiry of timer `id` of module `m` queues exactly one event if there is room: to
      `m`, about timer `id`. If nothing else is queued, that is what the module reads next. */
  lemma ExpiryNamesTimer(ops: seq<Op>, m: Module, id: int, now: nat)
    requires Holds(Run(Start(), ops).st, m, id) && |Run(Start(), ops).st.queue| < QUEUE_SIZE
    ensures var s := Run(Start(), ops); var s1 := Step(s, OpFire(id - 1, now));
            && s1.accepted == s.accepted + [TimerEvent(m, id)]
            && (s.st.queue == [] ==> GetEvent(s1.st, m).delivered == Some(TimerEvent(m, id)))
  {
    EveryRunSlotIds(ops);
    var s := Run(Start(), ops);
    hide Run;
    var r := FireTimer(s.st, id - 1, now);
    assert r.accepted == [TimerEvent(m, id)];
  }

  /** Five timers, ten subscriptions, at most 32 events queued: in every run. */
  lemma Capacities(ops: seq<Op>)
    ensures var s := Run(Start(), ops).st; |s.timers| == 5 && |s.subs| == 10 && |s.queue| <= 32
  {
    EveryRunCounts(ops);
    EveryRunIsFifo(ops);
  }

  // Messages

  /** The module has a subscription whose stored topic is `topic`. */
  ghost predicate Listens(s: State, m: Module, topic: string) {
    exists i :: 0 <= i < |s.subs| && s.subs[i].active && s.subs[i].owner == Some(m) && s.subs[i].topic == topic
  }

  /** The stored topic is the topic, cut to 63 characters. */
  lemma StoredIsCut(topic: string)
    ensures var t := Stored(topic);
            && |t| == (if |topic| <= 63 then |topic| else 63)
            && forall i :: 0 <= i < |t| ==> t[i] == topic[i]
  {
  }

  lemma SubscribeIff(s: State, m: Module, topic: Option<string>)
    ensures var r := Subscribe(s, m, topic);
            && (r.ret == -22 <==> topic == None || topic.value == "" || m !in s.counts)
            && (r.ret == 0 <==> topic != None && topic.value != "" && m in s.counts
                                && (Listens(s, m, topic.value) || exists i :: 0 <= i < |s.subs| && !s.subs[i].active))
            && (r.ret == 0 || r.ret == -12 || r.ret == -22)
            && (r.ret == 0 ==> Listens(r.st, m, topic.value) || Listens(r.st, m, Stored(topic.value)))
            && (forall k: Module, t :: Listens(s, k, t) ==> Listens(r.st, k, t))
  {
    hide Stored;
    var r := Subscribe(s, m, topic);
    var i := FirstFree(s.subs);
    if topic != None && topic.value != "" && m in s.counts && !Subscribed(s.subs, m, topic.value) && i < |s.subs| {
      assert r.st.subs[i].active && r.st.subs[i].topic == Stored(topic.value);
      forall k: Module, t | Listens(s, k, t)
        ensures Listens(r.st, k, t)
      {
        var j :| 0 <= j < |s.subs| && s.subs[j].active && s.subs[j].owner == Some(k) && s.subs[j].topic == t;
        assert r.st.subs[j] == s.subs[j];
      }
    }
  }

  lemma PublishRefused(s: State, topic: Option<string>, content: Option<string>, payload: bool, len: int,
                       offers: nat -> (nat, nat, nat))
    ensures Publish(s, topic, content, payload, len, offers).ret == -22 <==>
            topic == None || topic.value == "" || content == None || content.value == "" || !payload || len <= 0
  {
  }

  predicate CleansUp(op: Op, m: Module) { (op.OpCleanup? || op.OpUnregister?) && op.m == m }

  lemma ListensCall(s: State, op: Op, m: Module, topic: string)
    requires Listens(s, m, topic) && !CleansUp(op, m)
    ensures Listens(Call(s, op).st, m, topic)
  {
    var j :| 0 <= j < |s.subs| && s.subs[j].active && s.subs[j].owner == Some(m) && s.subs[j].topic == topic;
    var r := Call(s, op).st;
    match op
    case OpCleanup(_) => hide Cleanup; CleanupEffect(s, op.m); assert r.subs[j] == s.subs[j];
    case OpUnregister(_) => hide Cleanup; CleanupEffect(s, op.m); assert r.subs[j] == s.subs[j];
    case OpSubscribe(k, t) => hide Subscribe; SubscribeIff(s, k, t);
    case OpPublish(_, _, _, _, _, _) => hide Call; TablesKept(s, op);
    case OpGet(_) => hide Call; TablesKept(s, op);
    case OpFree(_, _, _, _) => hide Call; TablesKept(s, op);
    case _ => assert r.subs == s.subs;
  }

  /** A subscription lasts through every run that does not clean up its module. */
  lemma {:induction false} ListensOn(s: Sys, m: Module, topic: string, ops: seq<Op>)
    requires Listens(s.st, m, topic) && forall n :: 0 <= n < |ops| ==> !CleansUp(ops[n], m)
    ensures Listens(Run(s, ops).st, m, topic)
  {
    if ops != [] {
      ListensOn(s, m, topic, ops[..|ops| - 1]);
      assert !CleansUp(ops[|ops| - 1], m);
      hide Call, CleansUp;
      ListensCall(Run(s, ops[..|ops| - 1]).st, ops[|ops| - 1], m, topic);
    }
  }

  /** The allocators of all subscribers offer fresh blocks, and the queue has room for all. */
  ghost predicate Ample(s: State, offers: nat -> (nat, nat, nat)) {
    && |s.queue| + |s.subs| <= QUEUE_SIZE
    && (forall i :: 0 <= i < |s.subs| && s.subs[i].owner.Some? ==> Fresh(Live(s, s.subs[i].owner.value), offers(i)))
    && (forall i, k :: 0 <= i < k < |s.subs| ==>
          {offers(i).0, offers(i).1, offers(i).2} !! {offers(k).0, offers(k).1, offers(k).2})
  }

  /** A message to `m` with the three blocks that were allocated for slot `i`, topic first, then content type, then
      payload. */
  predicate IsMessageTo(e: Event, m: Module, id: nat, o: (nat, nat, nat), len: int) {
    e == MessageEvent(m, id, o.0, o.1, o.2, if len < 0 then 0 else len)
  }

  ghost predicate Notified(r: Res, m: Module, id: nat, slots: nat, offers: nat -> (nat, nat, nat), len: int) {
    exists i, k :: 0 <= i < slots && 0 <= k < |r.accepted| && IsMessageTo(r.accepted[k], m, id, offers(i), len)
  }

  lemma SlotHears(s: State, j: nat, msg: Message) returns (k: nat)
    requires j < |s.subs| && Ample(s, msg.offers) && s.subs[j].active && s.subs[j].owner.Some?
    requires |s.subs[j].topic| <= |msg.topic|
    requires forall i :: 0 <= i < |s.subs[j].topic| ==> s.subs[j].topic[i] == msg.topic[i]
    ensures k < |PublishTo(s, |s.subs|, msg).1| && PublishTo(s, |s.subs|, msg).1[k] == EventFor(s, j, msg)
  {
    hide SentSlots, PublishTo, Fresh, Live, EventFor;
    assert forall i :: Offered(msg, i) == {msg.offers(i).0, msg.offers(i).1, msg.offers(i).2};
    ServedIffPrefix(s, msg, j);
    PublishInSlotOrder(s, |s.subs|, msg);
    k :| 0 <= k < |SentSlots(s, |s.subs|, msg)| && SentSlots(s, |s.subs|, msg)[k] == j;
  }

  lemma PublishAccepts(s: State, topic: string, content: string, len: int, offers: nat -> (nat, nat, nat))
    requires topic != "" && content != "" && len > 0
    ensures var r := Publish(s, Some(topic), Some(content), true, len, offers);
            && r.accepted == PublishTo(s, |s.subs|, Message(topic, len, offers)).1
            && (r.ret == 0 <==> r.accepted != [])
  {
    hide PublishTo;
  }

  /** Every publication that queued something takes the next id. */
  lemma NextMessageId(s: State, topic: string, content: string, len: int, offers: nat -> (nat, nat, nat))
    requires topic != "" && content != "" && len > 0
    ensures var r := Publish(s, Some(topic), Some(content), true, len, offers);
            r.st.messageId == if r.ret == 0 then (s.messageId + 1) % 0x1_0000_0000 else s.messageId
  {
    hide PublishTo;
    PublishAppends(s, |s.subs|, Message(topic, len, offers));
  }

  lemma Hears(s: State, m: Module, t: string, rest: string, content: string, len: int, offers: nat -> (nat, nat, nat))
    requires Listens(s, m, t) && Ample(s, offers) && t + rest != "" && content != "" && len > 0
    ensures var r := Publish(s, Some(t + rest), Some(content), true, len, offers);
            r.ret == 0 && Notified(r, m, s.messageId, |s.subs|, offers, len)
  {
    hide PublishTo, Ample, Publish;
    var msg := Message(t + rest, len, offers);
    var j :| 0 <= j < |s.subs| && s.subs[j].active && s.subs[j].owner == Some(m) && s.subs[j].topic == t;
    var k := SlotHears(s, j, msg);
    PublishAccepts(s, t + rest, content, len, offers);
    var r := Publish(s, Some(t + rest), Some(content), true, len, offers);
    assert IsMessageTo(r.accepted[k], m, s.messageId, offers(j), len);
  }

  /** What a successful subscribe leaves: a subscription to the topic, or to its first 63 characters. */
  lemma SubscribedAs(s: State, m: Module, p: string) returns (t: string)
    requires Subscribe(s, m, Some(p)).ret == 0
    ensures t <= p && p != "" && Listens(Subscribe(s, m, Some(p)).st, m, t)
  {
    SubscribeIff(s, m, Some(p));
    hide Subscribe;
    StoredIsCut(p);
    t := if Listens(Subscribe(s, m, Some(p)).st, m, p) then p else Stored(p);
  }

  lemma SubscribeStep(s: Sys, m: Module, topic: Option<string>)
    requires m in s.alive
    ensures Step(s, OpSubscribe(m, topic)).st == Subscribe(s.st, m, topic).st
  {
    hide Subscribe;
  }

  /** A module that subscribed to `p` with success gets, in every later run in which it is not cleaned up, a message for
      every publication on a topic that begins with `p`, as long as there is memory and room. */
  lemma SubscriberHears(s: Sys, m: Module, p: string, ops: seq<Op>, rest: string, content: string, len: int,
                        offers: nat -> (nat, nat, nat))
    requires m in s.alive && Subscribe(s.st, m, Some(p)).ret == 0
    requires forall n :: 0 <= n < |ops| ==> !CleansUp(ops[n], m)
    requires var r := Run(Step(s, OpSubscribe(m, Some(p))), ops); Ample(r.st, offers)
    requires content != "" && len > 0
    ensures var r := Run(Step(s, OpSubscribe(m, Some(p))), ops).st;
            var q := Publish(r, Some(p + rest), Some(content), true, len, offers);
            q.ret == 0 && Notified(q, m, r.messageId, |r.subs|, offers, len)
  {
    hide Subscribe, Listens, Ample, Publish, Step, Run, CleansUp, Notified;
    var t := SubscribedAs(s.st, m, p);
    SubscribeStep(s, m, Some(p));
    var s1 := Step(s, OpSubscribe(m, Some(p)));
    ListensOn(s1, m, t, ops);
    assert t + (p[|t|..] + rest) == p + rest;
    Hears(Run(s1, ops).st, m, t, p[|t|..] + rest, content, len, offers);
  }
}
