/**
 The event, messaging and timer interface of src/runtime/wamr-wasip1/ocre_api as functions on a
 state: what each call returns, what it changes, what it puts in the queue and what it delivers.
 Topics are the characters before the terminating NUL.
 */
module ApiSpec {
  import opened Wrappers
  import opened EventQueue

  type Module = nat

  const EPERM: int := 1
  const EBUSY: int := 16
  const EINVAL: int := 22

  const MAX_TIMERS: nat := 5
  const MAX_SUBSCRIPTIONS: nat := 10
  const MAX_TOPIC_LEN: nat := 64
  const QUEUE_SIZE: nat := 32
  const TWO_32: nat := 0x1_0000_0000

  datatype Event =
    | TimerEvent(owner: Module, timerId: nat)
    | MessageEvent(owner: Module, messageId: nat, topic: nat, content: nat, payload: nat, payloadLen: nat)

  /** A field of 16 bits. */
  type Interval = n: nat | n <= 65535

  /** A timer slot; `period` is what the OS timer of the slot was armed with last, 0 when it does not repeat. */
  datatype Timer = Timer(inUse: bool, id: nat, interval: Interval, periodic: bool, running: bool, startTime: nat,
                         owner: Option<Module>, period: nat)

  datatype Subscription = Subscription(topic: string, owner: Option<Module>, active: bool)

  datatype Counts = Counts(timers: nat, messaging: nat)

  /** `counts` has an entry for every module that has a context. `heap` holds, for every module, the
      offsets of the blocks that messaging allocated in its memory and that are still live. */
  datatype State = State(queue: seq<Event>, timers: seq<Timer>, subs: seq<Subscription>, subCount: nat,
                         counts: map<Module, Counts>, heap: map<Module, set<nat>>, messageId: nat)

  /** The outcome of a call. */
  datatype Res = Res(st: State, ret: int, accepted: seq<Event>, delivered: Option<Event>)

  function Initial(): State {
    State([], seq(MAX_TIMERS, _ => Timer(false, 0, 0, false, false, 0, None, 0)),
          seq(MAX_SUBSCRIPTIONS, _ => Subscription("", None, false)), 0, map[], map[], 0)
  }

  function Only(s: State, ret: int): Res { Res(s, ret, [], None) }

  // Resource counters

  function IncTimers(s: State, m: Module): State {
    if m in s.counts then s.(counts := s.counts[m := s.counts[m].(timers := s.counts[m].timers + 1)]) else s
  }

  function DecTimers(s: State, m: Module): State {
    if m in s.counts && s.counts[m].timers > 0
    then s.(counts := s.counts[m := s.counts[m].(timers := s.counts[m].timers - 1)]) else s
  }

  function IncMessaging(s: State, m: Module): State {
    if m in s.counts then s.(counts := s.counts[m := s.counts[m].(messaging := s.counts[m].messaging + 1)]) else s
  }

  function DecMessaging(s: State, m: Module): State {
    if m in s.counts && s.counts[m].messaging > 0
    then s.(counts := s.counts[m := s.counts[m].(messaging := s.counts[m].messaging - 1)]) else s
  }

  // Modules

  function Register(s: State, m: Module, mallocOk: bool): State {
    if mallocOk then s.(counts := s.counts[m := Counts(0, 0)]) else s
  }

  // Timers

  predicate BadId(s: State, id: int) { id <= 0 || id > |s.timers| }

  function SetTimer(s: State, i: nat, t: Timer): State
    requires i < |s.timers|
  {
    s.(timers := s.timers[i := t])
  }

  predicate Owns(t: Timer, m: Module) { t.inUse && t.owner == Some(m) }

  function CreateTimer(s: State, m: Module, id: int, initOk: bool): Res {
    if BadId(s, id) then Only(s, -EINVAL)
    else if s.timers[id - 1].inUse then Only(s, -EBUSY)
    else
      var t := s.timers[id - 1].(id := id, owner := Some(m), inUse := initOk, period := 0);
      if initOk then Only(IncTimers(SetTimer(s, id - 1, t), m), 0) else Only(SetTimer(s, id - 1, t), -EINVAL)
  }

  function Released(t: Timer): Timer { t.(inUse := false, running := false, owner := None, period := 0) }

  function DeleteTimer(s: State, m: Module, id: int): Res {
    if BadId(s, id) || !Owns(s.timers[id - 1], m) then Only(s, -EINVAL)
    else Only(DecTimers(SetTimer(s, id - 1, Released(s.timers[id - 1])), m), 0)
  }

  /** The period that a start asks of the OS timer. */
  function Period(interval: nat, isPeriodic: int): nat { if isPeriodic != 0 then interval else 0 }

  /** The periodic flag is a one-bit field, so it keeps the lowest bit of the argument; the OS timer gets a
      period for any argument but zero, and keeps its setting when arming it fails. */
  function StartTimer(s: State, m: Module, id: int, interval: int, isPeriodic: int, now: nat, startOk: bool): Res {
    if BadId(s, id) || !Owns(s.timers[id - 1], m) || interval <= 0 || interval > 65535 then Only(s, -EINVAL)
    else
      var t := s.timers[id - 1];
      var t1 := t.(interval := interval, periodic := isPeriodic % 2 == 1, startTime := now % TWO_32, running := startOk,
                   period := if startOk then Period(interval, isPeriodic) else t.period);
      Only(SetTimer(s, id - 1, t1), if startOk then 0 else -EINVAL)
  }

  function StopTimer(s: State, m: Module, id: int): Res {
    if BadId(s, id) || !Owns(s.timers[id - 1], m) then Only(s, -EINVAL)
    else Only(SetTimer(s, id - 1, s.timers[id - 1].(running := false, period := 0)), 0)
  }

  /** ocre_timer_get_remaining on 32-bit clocks. */
  function RemainingOf(t: Timer, now: nat): int {
    if !t.running then 0
    else
      var elapsed := (now % TWO_32 - t.startTime) % TWO_32;
      if elapsed >= t.interval then 0 else t.interval - elapsed
  }

  function GetRemaining(s: State, m: Module, id: int, now: nat): int {
    if BadId(s, id) || !Owns(s.timers[id - 1], m) then -EINVAL else RemainingOf(s.timers[id - 1], now)
  }

  /** The timer callback. */
  function FireTimer(s: State, i: nat, now: nat): Res {
    if i >= |s.timers| || !s.timers[i].inUse || s.timers[i].owner == None then Only(s, 0)
    else
      var t := s.timers[i];
      var s1 := SetTimer(s, i, if t.periodic then t.(startTime := now % TWO_32) else t.(running := false));
      Enqueue(s1, TimerEvent(t.owner.value, t.id))
  }

  function Enqueue(s: State, e: Event): Res {
    if |s.queue| >= QUEUE_SIZE then Only(s, -ENOMEM) else Res(s.(queue := s.queue + [e]), 0, [e], None)
  }

  function ReleaseTimer(s: State, m: Module, i: nat): State
    requires i < |s.timers|
  {
    if Owns(s.timers[i], m) then DecTimers(SetTimer(s, i, Released(s.timers[i])), m) else s
  }

  /** The cleanup loop over the first `n` slots. */
  function CleanTimers(s: State, m: Module, n: nat): (r: State)
    requires n <= |s.timers|
    ensures |r.timers| == |s.timers|
  {
    if n == 0 then s else ReleaseTimer(CleanTimers(s, m, n - 1), m, n - 1)
  }

  // Messaging

  predicate IsFor(b: Subscription, m: Module) { b.active && b.owner == Some(m) }

  function SetSub(s: State, i: nat, b: Subscription): State
    requires i < |s.subs|
  {
    s.(subs := s.subs[i := b])
  }

  /** strncpy into a buffer of 64, always terminated. */
  function Stored(topic: string): string {
    if |topic| < MAX_TOPIC_LEN then topic else topic[..MAX_TOPIC_LEN - 1]
  }

  function FirstFree(subs: seq<Subscription>): (i: nat)
    ensures i <= |subs|
    ensures forall j :: 0 <= j < i ==> subs[j].active
    ensures i < |subs| ==> !subs[i].active
  {
    if subs == [] || !subs[0].active then 0 else 1 + FirstFree(subs[1..])
  }

  predicate Subscribed(subs: seq<Subscription>, m: Module, topic: string) {
    exists i :: 0 <= i < |subs| && IsFor(subs[i], m) && subs[i].topic == topic
  }

  function Subscribe(s: State, m: Module, topic: Option<string>): Res {
    if topic == None || topic.value == "" || m !in s.counts then Only(s, -EINVAL)
    else if Subscribed(s.subs, m, topic.value) then Only(s, 0)
    else if FirstFree(s.subs) == |s.subs| then Only(s, -ENOMEM)
    else
      var s1 := SetSub(s, FirstFree(s.subs), Subscription(Stored(topic.value), Some(m), true));
      Only(IncMessaging(s1.(subCount := (s.subCount + 1) % 65536), m), 0)
  }

  function Dropped(b: Subscription): Subscription { Subscription("", None, false) }

  function DropSub(s: State, m: Module, i: nat): State
    requires i < |s.subs|
  {
    if IsFor(s.subs[i], m)
    then DecMessaging(SetSub(s, i, Dropped(s.subs[i])).(subCount := (s.subCount + 65535) % 65536), m) else s
  }

  function CleanSubs(s: State, m: Module, n: nat): (r: State)
    requires n <= |s.subs|
    ensures |r.subs| == |s.subs|
  {
    if n == 0 then s else DropSub(CleanSubs(s, m, n - 1), m, n - 1)
  }

  function LiveIn(heap: map<Module, set<nat>>, m: Module): set<nat> {
    if m in heap then heap[m] else {}
  }

  function Live(s: State, m: Module): set<nat> { LiveIn(s.heap, m) }

  /** A module without live blocks has no entry. */
  function SetLive(heap: map<Module, set<nat>>, m: Module, live: set<nat>): map<Module, set<nat>> {
    if live == {} then heap - {m} else heap[m := live]
  }

  lemma SetLiveLaws(heap: map<Module, set<nat>>, m: Module, a: set<nat>, b: set<nat>)
    ensures LiveIn(SetLive(heap, m, a), m) == a
    ensures SetLive(SetLive(heap, m, a), m, b) == SetLive(heap, m, b)
    ensures (forall k :: k in heap ==> heap[k] != {}) ==> SetLive(heap, m, LiveIn(heap, m)) == heap
  {
  }

  /** A message to publish: what the publisher passed, and the offsets that the allocator of the target
      module offers for slot `i`. Zero, or an offset in use, is a failed allocation. */
  datatype Message = Message(topic: string, payloadLen: nat, offers: nat -> (nat, nat, nat))

  predicate Fresh(live: set<nat>, o: (nat, nat, nat)) {
    && o.0 != 0 && o.1 != 0 && o.2 != 0
    && o.0 !in live && o.1 !in live && o.2 !in live
    && o.0 != o.1 && o.0 != o.2 && o.1 != o.2
  }

  predicate Matches(b: Subscription, topic: string) { b.active && b.topic <= topic && b.owner != None }

  /** Whether slot `i` gets its event, in the state that the earlier slots left. */
  predicate Sends(s: State, i: nat, msg: Message)
    requires i < |s.subs|
  {
    Matches(s.subs[i], msg.topic) && Fresh(Live(s, s.subs[i].owner.value), msg.offers(i)) && |s.queue| < QUEUE_SIZE
  }

  function EventFor(s: State, i: nat, msg: Message): Event
    requires i < |s.subs| && s.subs[i].owner.Some?
  {
    var o := msg.offers(i);
    MessageEvent(s.subs[i].owner.value, s.messageId, o.0, o.1, o.2, msg.payloadLen)
  }

  function Blocks(e: Event): set<nat> {
    if e.MessageEvent? then {e.topic, e.content, e.payload} else {}
  }

  function Send(s: State, i: nat, msg: Message): State
    requires i < |s.subs| && s.subs[i].owner.Some?
  {
    var e := EventFor(s, i, msg);
    s.(queue := s.queue + [e], heap := SetLive(s.heap, e.owner, Live(s, e.owner) + Blocks(e)))
  }

  /** The publish loop over the first `n` slots: the state, and the events in the order they were queued. */
  function PublishTo(s: State, n: nat, msg: Message): (r: (State, seq<Event>))
    requires n <= |s.subs|
    ensures r.0.subs == s.subs
  {
    if n == 0 then (s, [])
    else
      var r := PublishTo(s, n - 1, msg);
      if Sends(r.0, n - 1, msg) then (Send(r.0, n - 1, msg), r.1 + [EventFor(r.0, n - 1, msg)]) else r
  }

  function Publish(s: State, topic: Option<string>, contentType: Option<string>, payload: bool, payloadLen: int,
                   offers: nat -> (nat, nat, nat)): Res {
    if topic == None || topic.value == "" || contentType == None || contentType.value == "" || !payload
       || payloadLen <= 0
    then Only(s, -EINVAL)
    else
      var r := PublishTo(s, |s.subs|, Message(topic.value, payloadLen, offers));
      if r.1 == [] then Only(r.0, -ENOENT)
      else Res(r.0.(messageId := (s.messageId + 1) % TWO_32), 0, r.1, None)
  }

  // The reader

  function GetEvent(s: State, m: Module): Res {
    if s.queue == [] then Only(s, -ENOMSG)
    else if s.queue[0].owner != m then Only(s, -EPERM)
    else Res(s.(queue := s.queue[1..]), 0, [], Some(s.queue[0]))
  }

  function FreeData(s: State, m: Module, topic: nat, content: nat, payload: nat): Res {
    Only(s.(heap := SetLive(s.heap, m, Live(s, m) - {topic, content, payload})), 0)
  }

  // Cleanup dispatch, in the order of the resource types

  function Cleanup(s: State, m: Module): State {
    var s1 := CleanTimers(s, m, |s.timers|); CleanSubs(s1, m, |s1.subs|)
  }

  function Unregister(s: State, m: Module): State {
    var s1 := Cleanup(s, m);
    s1.(counts := s1.counts - {m})
  }
}
