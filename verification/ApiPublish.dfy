/** Which subscriptions a publication reaches, and in which order. */
module ApiPublish {
  import opened Wrappers
  import opened EventQueue
  import opened ApiSpec
  import opened ApiMemory

  /** The slots that got an event, in ascending order. */
  function SentSlots(s: State, n: nat, msg: Message): seq<nat>
    requires n <= |s.subs|
  {
    if n == 0 then []
    else SentSlots(s, n - 1, msg) + if Sends(PublishTo(s, n - 1, msg).0, n - 1, msg) then [n - 1] else []
  }

  lemma {:induction false} PublishAppends(s: State, n: nat, msg: Message)
    requires n <= |s.subs|
    ensures var r := PublishTo(s, n, msg);
            r.0 == s.(queue := s.queue + r.1, heap := r.0.heap)
            && (|s.queue| <= QUEUE_SIZE ==> |r.0.queue| <= QUEUE_SIZE)
  {
    hide Fresh, SetLive;
    if n == 0 {
      assert s.queue + [] == s.queue;
    } else {
      PublishAppends(s, n - 1, msg);
      var r := PublishTo(s, n - 1, msg);
      if Sends(r.0, n - 1, msg) {
        assert s.queue + (r.1 + [EventFor(r.0, n - 1, msg)]) == (s.queue + r.1) + [EventFor(r.0, n - 1, msg)];
      }
    }
  }

  lemma {:induction false} PublishAllocates(s: State, n: nat, msg: Message, m: Module)
    requires n <= |s.subs|
    ensures Live(PublishTo(s, n, msg).0, m) == Live(s, m) + Queued(PublishTo(s, n, msg).1, m)
  {
    hide Fresh, Queued;
    if n == 0 {
      assert Queued([], m) == {} by { QueuedNothing(m); }
    } else {
      PublishAllocates(s, n - 1, msg, m);
      var r := PublishTo(s, n - 1, msg);
      if Sends(r.0, n - 1, msg) {
        QueuedAppend(r.1, EventFor(r.0, n - 1, msg), m);
      }
    }
  }

  lemma QueuedNothing(m: Module)
    ensures Queued([], m) == {}
  {
  }

  /** Publishing appends to the queue, allocates the blocks of what it queued, and changes nothing else. */
  lemma PublishEffect(s: State, n: nat, msg: Message)
    requires n <= |s.subs|
    ensures var r := PublishTo(s, n, msg);
            && r.0 == s.(queue := s.queue + r.1, heap := r.0.heap)
            && (|s.queue| <= QUEUE_SIZE ==> |r.0.queue| <= QUEUE_SIZE)
            && forall m :: Live(r.0, m) == Live(s, m) + Queued(r.1, m)
  {
    hide PublishTo, Queued, Live;
    PublishAppends(s, n, msg);
    forall m
      ensures Live(PublishTo(s, n, msg).0, m) == Live(s, m) + Queued(PublishTo(s, n, msg).1, m)
    {
      PublishAllocates(s, n, msg, m);
    }
  }

  /** The accepted events are those of the sent slots, in slot order, one each, and every one of those
      slots is an active subscription whose stored topic is a prefix of the published topic. */
  lemma {:induction false} PublishInSlotOrder(s: State, n: nat, msg: Message)
    requires n <= |s.subs|
    ensures var slots, events := SentSlots(s, n, msg), PublishTo(s, n, msg).1;
            && |slots| == |events|
            && (forall k :: 0 <= k < |slots| ==> slots[k] < n && Matches(s.subs[slots[k]], msg.topic))
            && (forall k :: 0 <= k < |slots| ==> events[k] == EventFor(s, slots[k], msg))
            && (forall j, k :: 0 <= j < k < |slots| ==> slots[j] < slots[k])
  {
    hide Fresh, Live, Queued, Send;
    if n > 0 {
      PublishInSlotOrder(s, n - 1, msg);
      PublishEffect(s, n - 1, msg);
      var r, slots := PublishTo(s, n - 1, msg), SentSlots(s, n - 1, msg);
      if Sends(r.0, n - 1, msg) {
        assert EventFor(r.0, n - 1, msg) == EventFor(s, n - 1, msg);
        assert SentSlots(s, n, msg) == slots + [n - 1];
        assert PublishTo(s, n, msg).1 == r.1 + [EventFor(s, n - 1, msg)];
      } else {
        assert SentSlots(s, n, msg) == slots;
      }
    }
  }

  /** A matching slot is served exactly when its three allocations and the queue have room for it,
      counting what the earlier slots took. */
  lemma {:induction false} SlotFate(s: State, n: nat, j: nat, msg: Message)
    requires j < n <= |s.subs|
    ensures var before := PublishTo(s, j, msg).1;
            j in SentSlots(s, n, msg) <==>
            && Matches(s.subs[j], msg.topic)
            && Fresh(Live(s, s.subs[j].owner.value) + Queued(before, s.subs[j].owner.value), msg.offers(j))
            && |s.queue| + |before| < QUEUE_SIZE
  {
    hide Queued, Fresh;
    PublishEffect(s, j, msg);
    PublishInSlotOrder(s, n - 1, msg);
    if j < n - 1 {
      SlotFate(s, n - 1, j, msg);
    }
  }

  lemma {:induction false} QueuedFrom(events: seq<Event>, m: Module, x: nat)
    requires x in Queued(events, m)
    ensures exists k :: 0 <= k < |events| && events[k].owner == m && x in Blocks(events[k])
  {
    if events[0].owner == m && x in Blocks(events[0]) {
    } else {
      QueuedFrom(events[1..], m, x);
      var k :| 0 <= k < |events[1..]| && events[1..][k].owner == m && x in Blocks(events[1..][k]);
      assert events[k + 1] == events[1..][k];
    }
  }

  function Offered(msg: Message, i: nat): set<nat> { {msg.offers(i).0, msg.offers(i).1, msg.offers(i).2} }

  lemma OfferedBefore(s: State, msg: Message, j: nat, m: Module, x: nat)
    requires j <= |s.subs| && x in Queued(PublishTo(s, j, msg).1, m)
    ensures exists i :: 0 <= i < j && x in Offered(msg, i)
  {
    PublishInSlotOrder(s, j, msg);
    var before, slots := PublishTo(s, j, msg).1, SentSlots(s, j, msg);
    QueuedFrom(before, m, x);
    var k :| 0 <= k < |before| && before[k].owner == m && x in Blocks(before[k]);
    assert x in Offered(msg, slots[k]);
  }

  /** With enough memory and room, every matching subscription is served. */
  lemma AllServed(s: State, msg: Message, j: nat)
    requires j < |s.subs| && |s.queue| + |s.subs| <= QUEUE_SIZE
    requires forall i :: 0 <= i < |s.subs| && Matches(s.subs[i], msg.topic) ==>
               Fresh(Live(s, s.subs[i].owner.value), msg.offers(i))
    requires forall i, k :: 0 <= i < k < |s.subs| ==> Offered(msg, i) !! Offered(msg, k)
    ensures j in SentSlots(s, |s.subs|, msg) <==> Matches(s.subs[j], msg.topic)
  {
    hide Queued, PublishTo, SentSlots;
    SlotFate(s, |s.subs|, j, msg);
    PublishInSlotOrder(s, j, msg);
    var before, slots := PublishTo(s, j, msg).1, SentSlots(s, j, msg);
    SlotsBound(slots, j);
    if Matches(s.subs[j], msg.topic) {
      var o := s.subs[j].owner.value;
      forall x | x in Offered(msg, j)
        ensures x !in Queued(before, o)
      {
        if x in Queued(before, o) {
          OfferedBefore(s, msg, j, o, x);
        }
      }
      assert msg.offers(j).0 in Offered(msg, j) && msg.offers(j).1 in Offered(msg, j)
             && msg.offers(j).2 in Offered(msg, j);
    }
  }

  /** In characters: with enough memory and room, a slot is served iff it is an active subscription of a module and
      its stored topic is how the published topic begins. */
  lemma ServedIffPrefix(s: State, msg: Message, j: nat)
    requires j < |s.subs| && |s.queue| + |s.subs| <= QUEUE_SIZE
    requires forall i :: 0 <= i < |s.subs| && s.subs[i].owner.Some? ==>
               Fresh(Live(s, s.subs[i].owner.value), msg.offers(i))
    requires forall i, k :: 0 <= i < k < |s.subs| ==> Offered(msg, i) !! Offered(msg, k)
    ensures j in SentSlots(s, |s.subs|, msg) <==>
            && s.subs[j].active && s.subs[j].owner.Some?
            && |s.subs[j].topic| <= |msg.topic|
            && forall i :: 0 <= i < |s.subs[j].topic| ==> s.subs[j].topic[i] == msg.topic[i]
  {
    hide SentSlots, Fresh, Live;
    AllServed(s, msg, j);
  }

  lemma {:induction false} SlotsBound(slots: seq<nat>, n: nat)
    requires forall k :: 0 <= k < |slots| ==> slots[k] < n
    requires forall j, k :: 0 <= j < k < |slots| ==> slots[j] < slots[k]
    ensures |slots| <= n
  {
    if slots != [] {
      SlotsBound(slots[..|slots| - 1], slots[|slots| - 1]);
    }
  }

  /** The call returns 0 iff at least one event was queued, and -ENOENT or -EINVAL otherwise. */
  lemma PublishReturn(s: State, topic: Option<string>, content: Option<string>, payload: bool, len: int,
                      offers: nat -> (nat, nat, nat))
    ensures var r := Publish(s, topic, content, payload, len, offers);
            && (r.ret == 0 <==> r.accepted != [])
            && r.st.queue == s.queue + r.accepted
            && (r.ret != 0 ==> r.st == s)
  {
    if topic != None && topic.value != "" && content != None && content.value != "" && payload && len > 0 {
      var msg := Message(topic.value, len, offers);
      PublishEffect(s, |s.subs|, msg);
      PublishUnchanged(s, |s.subs|, msg);
    } else {
      assert s.queue + [] == s.queue;
    }
  }

  lemma {:induction false} PublishUnchanged(s: State, n: nat, msg: Message)
    requires n <= |s.subs|
    ensures PublishTo(s, n, msg).1 == [] ==> PublishTo(s, n, msg).0 == s
  {
    if n > 0 {
      PublishUnchanged(s, n - 1, msg);
    }
  }
}
