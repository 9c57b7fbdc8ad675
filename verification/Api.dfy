/**
 The event, messaging and timer interface as the program runs it: tables that loops scan and update
 in place, a ring buffer, and a heap per module that blocks are allocated in and freed from. Every
 call is proved against its function in `ApiSpec`.
 */
module Api {
  import opened Wrappers
  import opened EventQueue
  import opened ApiSpec

  class Interface {
    const queue: Queue<Event>
    const timers: array<Timer>
    const subs: array<Subscription>
    var subCount: nat
    var counts: map<Module, Counts>
    var heap: map<Module, set<nat>>
    var messageId: nat

    ghost predicate Valid()
      reads this, queue
    {
      && queue.Valid() && queue.maxItems == QUEUE_SIZE
      && timers.Length == MAX_TIMERS && subs.Length == MAX_SUBSCRIPTIONS
      && timers as object != subs && timers as object != queue.buffer && subs as object != queue.buffer
      && forall m :: m in heap ==> heap[m] != {}
    }

    ghost function View(): State
      requires Valid()
      reads this, queue, queue.buffer, timers, subs
    {
      State(queue.Contents(), timers[..], subs[..], subCount, counts, heap, messageId)
    }

    constructor ()
      ensures Valid() && View() == Initial()
      ensures fresh(queue) && fresh(queue.buffer) && fresh(timers) && fresh(subs)
    {
      queue := new Queue<Event>(QUEUE_SIZE);
      timers := new Timer[MAX_TIMERS](_ => Timer(false, 0, 0, false, false, 0, None, 0));
      subs := new Subscription[MAX_SUBSCRIPTIONS](_ => Subscription("", None, false));
      subCount, counts, heap, messageId := 0, map[], map[], 0;
      new;
      assert timers[..] == Initial().timers && subs[..] == Initial().subs;
    }

    // ocre_common.c: counters and modules

    method IncrementTimers(m: Module)
      requires Valid()
      modifies this`counts
      ensures Valid() && View() == IncTimers(old(View()), m)
    {
      if m in counts {
        counts := counts[m := counts[m].(timers := counts[m].timers + 1)];
      }
    }

    method DecrementTimers(m: Module)
      requires Valid()
      modifies this`counts
      ensures Valid() && View() == DecTimers(old(View()), m)
    {
      if m in counts && counts[m].timers > 0 {
        counts := counts[m := counts[m].(timers := counts[m].timers - 1)];
      }
    }

    method IncrementMessaging(m: Module)
      requires Valid()
      modifies this`counts
      ensures Valid() && View() == IncMessaging(old(View()), m)
    {
      if m in counts {
        counts := counts[m := counts[m].(messaging := counts[m].messaging + 1)];
      }
    }

    method DecrementMessaging(m: Module)
      requires Valid()
      modifies this`counts
      ensures Valid() && View() == DecMessaging(old(View()), m)
    {
      if m in counts && counts[m].messaging > 0 {
        counts := counts[m := counts[m].(messaging := counts[m].messaging - 1)];
      }
    }

    method RegisterModule(m: Module, mallocOk: bool)
      requires Valid()
      modifies this`counts
      ensures Valid() && View() == Register(old(View()), m, mallocOk)
    {
      if mallocOk {
        counts := counts[m := Counts(0, 0)];
      }
    }

    /** ocre_unregister_module: cleanup, then the context is freed. */
    method UnregisterModule(m: Module)
      requires Valid()
      modifies this`counts, this`subCount, timers, subs
      ensures Valid() && View() == Unregister(old(View()), m)
    {
      CleanupModule(m);
      counts := counts - {m};
    }

    /** ocre_cleanup_module_resources: the timer handler, then the messaging handler. */
    method CleanupModule(m: Module)
      requires Valid()
      modifies this`counts, this`subCount, timers, subs
      ensures Valid() && View() == Cleanup(old(View()), m)
    {
      CleanupTimers(m);
      CleanupSubscriptions(m);
    }

    // ocre_timer.c

    method TimerCreate(m: Module, id: int, initOk: bool) returns (ret: int)
      requires Valid()
      modifies this`counts, timers
      ensures Valid() && Only(View(), ret) == CreateTimer(old(View()), m, id, initOk)
    {
      if id <= 0 || id > MAX_TIMERS {
        return -EINVAL;
      }
      if timers[id - 1].inUse {
        return -EBUSY;
      }
      timers[id - 1] := timers[id - 1].(id := id, owner := Some(m), inUse := true, period := 0);
      if !initOk {
        timers[id - 1] := timers[id - 1].(inUse := false);
        return -EINVAL;
      }
      IncrementTimers(m);
      ret := 0;
    }

    method TimerDelete(m: Module, id: int) returns (ret: int)
      requires Valid()
      modifies this`counts, timers
      ensures Valid() && Only(View(), ret) == DeleteTimer(old(View()), m, id)
    {
      if id <= 0 || id > MAX_TIMERS || !timers[id - 1].inUse || timers[id - 1].owner != Some(m) {
        return -EINVAL;
      }
      timers[id - 1] := timers[id - 1].(inUse := false, running := false, owner := None, period := 0);
      DecrementTimers(m);
      ret := 0;
    }

    method TimerStart(m: Module, id: int, interval: int, isPeriodic: int, now: nat, startOk: bool) returns (ret: int)
      requires Valid()
      modifies timers
      ensures Valid() && Only(View(), ret) == StartTimer(old(View()), m, id, interval, isPeriodic, now, startOk)
    {
      if id <= 0 || id > MAX_TIMERS || !timers[id - 1].inUse || timers[id - 1].owner != Some(m) {
        return -EINVAL;
      }
      if interval <= 0 || interval > 65535 {
        return -EINVAL;
      }
      timers[id - 1] := timers[id - 1].(interval := interval, periodic := isPeriodic % 2 == 1,
                                        startTime := now % TWO_32, running := true);
      if !startOk {
        timers[id - 1] := timers[id - 1].(running := false);
        return -EINVAL;
      }
      timers[id - 1] := timers[id - 1].(period := if isPeriodic != 0 then interval else 0);
      ret := 0;
    }

    method TimerStop(m: Module, id: int) returns (ret: int)
      requires Valid()
      modifies timers
      ensures Valid() && Only(View(), ret) == StopTimer(old(View()), m, id)
      ensures ret == 0 ==> forall now :: GetRemaining(View(), m, id, now) == 0
    {
      if id <= 0 || id > MAX_TIMERS || !timers[id - 1].inUse || timers[id - 1].owner != Some(m) {
        return -EINVAL;
      }
      timers[id - 1] := timers[id - 1].(running := false, period := 0);
      ret := 0;
    }

    /** 32-bit unsigned subtraction, then the comparison with the interval. */
    method TimerGetRemaining(m: Module, id: int, now: nat) returns (ret: int)
      requires Valid()
      ensures ret == GetRemaining(View(), m, id, now)
      ensures ret == -EINVAL || 0 <= ret <= 65535
    {
      if id <= 0 || id > MAX_TIMERS || !timers[id - 1].inUse || timers[id - 1].owner != Some(m) {
        return -EINVAL;
      }
      var t := timers[id - 1];
      if !t.running {
        ret := 0;
      } else {
        var elapsed := (now % TWO_32 - t.startTime) % TWO_32;
        if elapsed >= t.interval {
          ret := 0;
        } else {
          ret := t.interval - elapsed;
        }
      }
    }

    method TimerCallback(i: nat, now: nat) returns (ghost r: Res)
      requires Valid() && i < MAX_TIMERS
      modifies timers, queue, queue.buffer
      ensures Valid() && r == FireTimer(old(View()), i, now) && View() == r.st
    {
      r := FireTimer(View(), i, now);
      if !timers[i].inUse || timers[i].owner == None {
        return;
      }
      if !timers[i].periodic {
        timers[i] := timers[i].(running := false);
      } else {
        timers[i] := timers[i].(startTime := now % TWO_32);
      }
      var rc := queue.Put(TimerEvent(timers[i].owner.value, timers[i].id));
    }

    method CleanupTimers(m: Module)
      requires Valid()
      modifies this`counts, timers
      ensures Valid() && View() == CleanTimers(old(View()), m, MAX_TIMERS)
    {
      for i := 0 to MAX_TIMERS
        invariant Valid() && View() == CleanTimers(old(View()), m, i)
      {
        ReleaseSlot(m, i);
      }
    }

    method ReleaseSlot(m: Module, i: nat)
      requires Valid() && i < MAX_TIMERS
      modifies this`counts, timers
      ensures Valid() && View() == ReleaseTimer(old(View()), m, i)
    {
      if timers[i].inUse && timers[i].owner == Some(m) {
        timers[i] := timers[i].(inUse := false, running := false, owner := None, period := 0);
        DecrementTimers(m);
      }
    }

    // ocre_messaging.c

    method CleanupSubscriptions(m: Module)
      requires Valid()
      modifies this`counts, this`subCount, subs
      ensures Valid() && View() == CleanSubs(old(View()), m, MAX_SUBSCRIPTIONS)
    {
      for i := 0 to MAX_SUBSCRIPTIONS
        invariant Valid() && View() == CleanSubs(old(View()), m, i)
      {
        DropSlot(m, i);
      }
    }

    method DropSlot(m: Module, i: nat)
      requires Valid() && i < MAX_SUBSCRIPTIONS
      modifies this`counts, this`subCount, subs
      ensures Valid() && View() == DropSub(old(View()), m, i)
    {
      if subs[i].active && subs[i].owner == Some(m) {
        subs[i] := Subscription("", None, false);
        subCount := (subCount + 65535) % 65536;
        DecrementMessaging(m);
      }
    }

    method AlreadySubscribed(m: Module, topic: string) returns (found: bool)
      requires Valid()
      ensures found <==> Subscribed(View().subs, m, topic)
    {
      for i := 0 to MAX_SUBSCRIPTIONS
        invariant forall j :: 0 <= j < i ==> !(IsFor(subs[j], m) && subs[j].topic == topic)
      {
        if subs[i].active && subs[i].owner == Some(m) && subs[i].topic == topic {
          assert IsFor(View().subs[i], m);
          return true;
        }
      }
      found := false;
    }

    method TakeSlot(m: Module, i: nat, topic: string)
      requires Valid() && i < MAX_SUBSCRIPTIONS
      modifies this`counts, this`subCount, subs
      ensures Valid()
      ensures var s1 := SetSub(old(View()), i, Subscription(Stored(topic), Some(m), true));
              View() == IncMessaging(s1.(subCount := (s1.subCount + 1) % 65536), m)
    {
      subs[i] := Subscription(Stored(topic), Some(m), true);
      subCount := (subCount + 1) % 65536;
      IncrementMessaging(m);
    }

    method SubscribeTo(m: Module, topic: Option<string>) returns (ret: int)
      requires Valid()
      modifies this`counts, this`subCount, subs
      ensures Valid() && Only(View(), ret) == Subscribe(old(View()), m, topic)
    {
      if topic == None || topic.value == "" || m !in counts {
        return -EINVAL;
      }
      var found := AlreadySubscribed(m, topic.value);
      if found {
        return 0;
      }
      for i := 0 to MAX_SUBSCRIPTIONS
        invariant View() == old(View()) && forall j :: 0 <= j < i ==> subs[j].active
      {
        if !subs[i].active {
          FirstFreeIs(subs[..], i);
          TakeSlot(m, i, topic.value);
          return 0;
        }
      }
      NoneFree(subs[..]);
      ret := -ENOMEM;
    }

    /** wasm_runtime_module_dup_data: a fresh block at the offered offset, or 0. */
    method Dup(m: Module, offer: nat) returns (offset: nat)
      requires Valid()
      modifies this`heap
      ensures Valid()
      ensures var live := LiveIn(old(heap), m);
              if offer != 0 && offer !in live then offset == offer && heap == SetLive(old(heap), m, live + {offer})
              else offset == 0 && heap == old(heap)
    {
      var live := if m in heap then heap[m] else {};
      if offer != 0 && offer !in live {
        heap := heap[m := live + {offer}];
        offset := offer;
      } else {
        offset := 0;
      }
    }

    method FreeBlock(m: Module, offset: nat)
      requires Valid()
      modifies this`heap
      ensures Valid() && heap == SetLive(old(heap), m, LiveIn(old(heap), m) - {offset})
    {
      var live := if m in heap then heap[m] else {};
      heap := SetLive(heap, m, live - {offset});
    }

    /** The three copies for one target: all of them, or none and everything freed again. */
    method DupThree(m: Module, offers: (nat, nat, nat)) returns (ok: bool, t: nat, c: nat, p: nat)
      requires Valid()
      modifies this`heap
      ensures Valid() && ok == Fresh(LiveIn(old(heap), m), offers)
      ensures if ok then (t, c, p) == offers && heap == SetLive(old(heap), m, LiveIn(old(heap), m) + {t, c, p})
              else heap == old(heap)
    {
      hide SetLive;
      ghost var h0, live := heap, LiveIn(heap, m);
      ok, c, p := false, 0, 0;
      t := Dup(m, offers.0);
      if t == 0 {
        return;
      }
      SetLiveLaws(h0, m, live + {t}, live);
      c := Dup(m, offers.1);
      if c == 0 {
        FreeBlock(m, t);
        assert live + {t} - {t} == live;
        return;
      }
      SetLiveLaws(h0, m, live + {t}, live + {t} + {c});
      SetLiveLaws(h0, m, live + {t} + {c}, live);
      p := Dup(m, offers.2);
      if p == 0 {
        SetLiveLaws(h0, m, live + {t} + {c}, live + {t} + {c} - {t});
        FreeBlock(m, t);
        SetLiveLaws(h0, m, live + {t} + {c} - {t}, live);
        FreeBlock(m, c);
        assert live + {t} + {c} - {t} - {c} == live;
        return;
      }
      SetLiveLaws(h0, m, live + {t} + {c}, live + {t, c, p});
      assert live + {t} + {c} + {p} == live + {t, c, p};
      ok := true;
    }

    /** Frees three blocks, one after the other. */
    method FreeThree(m: Module, t: nat, c: nat, p: nat)
      requires Valid()
      modifies this`heap
      ensures Valid() && heap == SetLive(old(heap), m, LiveIn(old(heap), m) - {t, c, p})
    {
      hide SetLive;
      ghost var h0, live := heap, LiveIn(heap, m);
      FreeBlock(m, t);
      SetLiveLaws(h0, m, live - {t}, live - {t} - {c});
      FreeBlock(m, c);
      SetLiveLaws(h0, m, live - {t} - {c}, live - {t} - {c} - {p});
      FreeBlock(m, p);
      assert live - {t} - {c} - {p} == live - {t, c, p};
    }

    /** One turn of the publish loop. */
    method PublishSlot(i: nat, msg: Message) returns (sent: bool)
      requires Valid() && i < MAX_SUBSCRIPTIONS
      modifies this`heap, queue, queue.buffer
      ensures Valid()
      ensures if Sends(old(View()), i, msg) then sent && View() == Send(old(View()), i, msg)
              else !sent && View() == old(View())
    {
      hide SetLive;
      sent := false;
      if !subs[i].active || !(subs[i].topic <= msg.topic) || subs[i].owner == None {
        return;
      }
      var target := subs[i].owner.value;
      ghost var h0, live := heap, LiveIn(heap, target);
      var ok, t, c, p := DupThree(target, msg.offers(i));
      if !ok {
        return;
      }
      var rc := queue.Put(MessageEvent(target, messageId, t, c, p, msg.payloadLen));
      if rc != 0 {
        SetLiveLaws(h0, target, live + {t, c, p}, live);
        FreeThree(target, t, c, p);
        assert live + {t, c, p} - {t, c, p} == live;
      } else {
        sent := true;
      }
    }

    method PublishMessage(topic: Option<string>, contentType: Option<string>, payload: bool, payloadLen: int,
                          offers: nat -> (nat, nat, nat)) returns (ret: int, ghost r: Res)
      requires Valid()
      modifies this`heap, this`messageId, queue, queue.buffer
      ensures Valid() && r == Publish(old(View()), topic, contentType, payload, payloadLen, offers)
      ensures View() == r.st && ret == r.ret
    {
      r := Publish(View(), topic, contentType, payload, payloadLen, offers);
      if topic == None || topic.value == "" || contentType == None || contentType.value == "" || !payload
         || payloadLen <= 0 {
        return -EINVAL, r;
      }
      var msg := Message(topic.value, payloadLen, offers);
      var messageSent := false;
      ghost var s := View();
      for i := 0 to MAX_SUBSCRIPTIONS
        invariant Valid() && View() == PublishTo(s, i, msg).0 && messageSent == (PublishTo(s, i, msg).1 != [])
        invariant messageId == s.messageId
      {
        var sent := PublishSlot(i, msg);
        messageSent := messageSent || sent;
      }
      if messageSent {
        messageId := (messageId + 1) % TWO_32;
        ret := 0;
      } else {
        ret := -ENOENT;
      }
    }

    method FreeEventData(m: Module, topic: nat, content: nat, payload: nat) returns (ret: int)
      requires Valid()
      modifies this`heap
      ensures Valid() && Only(View(), ret) == FreeData(old(View()), m, topic, content, payload)
    {
      hide SetLive;
      FreeThree(m, topic, content, payload);
      ret := 0;
    }

    /** ocre_get_event: looks at the head only. */
    method GetNextEvent(m: Module) returns (ret: int, event: Option<Event>)
      requires Valid()
      modifies queue
      ensures Valid() && Res(View(), ret, [], event) == GetEvent(old(View()), m)
    {
      var rc, head := queue.Peek();
      if rc != 0 {
        return -ENOMSG, None;
      }
      if head.value.owner != m {
        return -EPERM, None;
      }
      rc, event := queue.Get();
      ret := 0;
    }
  }

  lemma {:induction false} FirstFreeIs(subs: seq<Subscription>, i: nat)
    requires i < |subs| && !subs[i].active && forall j :: 0 <= j < i ==> subs[j].active
    ensures FirstFree(subs) == i
  {
    if i > 0 {
      FirstFreeIs(subs[1..], i - 1);
    }
  }

  lemma {:induction false} NoneFree(subs: seq<Subscription>)
    requires forall j :: 0 <= j < |subs| ==> subs[j].active
    ensures FirstFree(subs) == |subs|
  {
    if subs != [] {
      NoneFree(subs[1..]);
    }
  }
}
