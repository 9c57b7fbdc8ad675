/** The resource counters, and why they always agree with the tables. */
module ApiCounts {
  import opened Wrappers
  import opened EventQueue
  import opened ApiSpec

  function Count(bs: seq<bool>): (n: nat)
    ensures n <= |bs|
  {
    if bs == [] then 0 else Count(bs[..|bs| - 1]) + if bs[|bs| - 1] then 1 else 0
  }

  lemma {:induction false} CountUpdate(bs: seq<bool>, i: nat, b: bool)
    requires i < |bs|
    ensures Count(bs[i := b]) == Count(bs) - (if bs[i] then 1 else 0) + (if b then 1 else 0)
  {
    var n := |bs| - 1;
    var us := bs[i := b];
    if i == n {
      assert us[..n] == bs[..n];
    } else {
      CountUpdate(bs[..n], i, b);
      assert us[..n] == bs[..n][i := b];
    }
  }

  lemma {:induction false} CountPositive(bs: seq<bool>, i: nat)
    requires i < |bs| && bs[i]
    ensures Count(bs) > 0
  {
    if i < |bs| - 1 {
      CountPositive(bs[..|bs| - 1], i);
    }
  }

  lemma {:induction false} CountNone(bs: seq<bool>)
    requires forall i :: 0 <= i < |bs| ==> !bs[i]
    ensures Count(bs) == 0
  {
    if bs != [] {
      CountNone(bs[..|bs| - 1]);
    }
  }

  function TimerFlags(ts: seq<Timer>, m: Module): (r: seq<bool>)
    ensures |r| == |ts| && forall i :: 0 <= i < |ts| ==> r[i] == Owns(ts[i], m)
  {
    seq(|ts|, i requires 0 <= i < |ts| => Owns(ts[i], m))
  }

  function SubFlags(bs: seq<Subscription>, m: Module): (r: seq<bool>)
    ensures |r| == |bs| && forall i :: 0 <= i < |bs| ==> r[i] == IsFor(bs[i], m)
  {
    seq(|bs|, i requires 0 <= i < |bs| => IsFor(bs[i], m))
  }

  function ActiveFlags(bs: seq<Subscription>): (r: seq<bool>)
    ensures |r| == |bs| && forall i :: 0 <= i < |bs| ==> r[i] == bs[i].active
  {
    seq(|bs|, i requires 0 <= i < |bs| => bs[i].active)
  }

  /** The counters tell the truth. */
  ghost predicate CountsOk(s: State) {
    && |s.timers| == MAX_TIMERS && |s.subs| == MAX_SUBSCRIPTIONS
    && s.subCount == Count(ActiveFlags(s.subs))
    && (forall m :: m in s.counts ==> s.counts[m].timers == Count(TimerFlags(s.timers, m)))
    && (forall m :: m in s.counts ==> s.counts[m].messaging == Count(SubFlags(s.subs, m)))
  }

  lemma TimerSet(ts: seq<Timer>, i: nat, t: Timer, m: Module)
    requires i < |ts|
    ensures Count(TimerFlags(ts[i := t], m))
         == Count(TimerFlags(ts, m)) - (if Owns(ts[i], m) then 1 else 0) + (if Owns(t, m) then 1 else 0)
  {
    CountUpdate(TimerFlags(ts, m), i, Owns(t, m));
    assert TimerFlags(ts[i := t], m) == TimerFlags(ts, m)[i := Owns(t, m)];
  }

  lemma SubSet(bs: seq<Subscription>, i: nat, b: Subscription, m: Module)
    requires i < |bs|
    ensures Count(SubFlags(bs[i := b], m))
         == Count(SubFlags(bs, m)) - (if IsFor(bs[i], m) then 1 else 0) + (if IsFor(b, m) then 1 else 0)
    ensures Count(ActiveFlags(bs[i := b]))
         == Count(ActiveFlags(bs)) - (if bs[i].active then 1 else 0) + (if b.active then 1 else 0)
  {
    CountUpdate(SubFlags(bs, m), i, IsFor(b, m));
    assert SubFlags(bs[i := b], m) == SubFlags(bs, m)[i := IsFor(b, m)];
    CountUpdate(ActiveFlags(bs), i, b.active);
    assert ActiveFlags(bs[i := b]) == ActiveFlags(bs)[i := b.active];
  }

  /** A decrement that the code would skip at zero is never asked for: the slot being released is
      itself counted. */
  lemma NoDecrementSuppressed(s: State, m: Module, i: nat)
    requires CountsOk(s) && m in s.counts
    ensures i < |s.timers| && Owns(s.timers[i], m) ==> s.counts[m].timers > 0
    ensures i < |s.subs| && IsFor(s.subs[i], m) ==> s.counts[m].messaging > 0
    ensures i < |s.subs| && s.subs[i].active ==> s.subCount > 0
  {
    if i < |s.timers| && Owns(s.timers[i], m) {
      CountPositive(TimerFlags(s.timers, m), i);
    }
    if i < |s.subs| && IsFor(s.subs[i], m) {
      CountPositive(SubFlags(s.subs, m), i);
    }
    if i < |s.subs| && s.subs[i].active {
      CountPositive(ActiveFlags(s.subs), i);
    }
  }

  /** Replacing a slot by one with the same user changes no count. */
  lemma SameUser(s: State, i: nat, t: Timer)
    requires CountsOk(s) && i < |s.timers|
    requires t.inUse == s.timers[i].inUse && (t.inUse ==> t.owner == s.timers[i].owner)
    ensures CountsOk(SetTimer(s, i, t))
  {
    hide Count, TimerFlags;
    forall m | m in s.counts
      ensures Count(TimerFlags(s.timers[i := t], m)) == Count(TimerFlags(s.timers, m))
    {
      TimerSet(s.timers, i, t, m);
    }
  }

  lemma CreateCounts(s: State, m: Module, id: int, initOk: bool)
    requires CountsOk(s)
    ensures CountsOk(CreateTimer(s, m, id, initOk).st)
  {
    if !BadId(s, id) && !s.timers[id - 1].inUse {
      var i := id - 1;
      var t := s.timers[i].(id := id, owner := Some(m), inUse := initOk, period := 0);
      hide Count, TimerFlags;
      forall k | k in s.counts
        ensures Count(TimerFlags(s.timers[i := t], k))
             == Count(TimerFlags(s.timers, k)) + if initOk && k == m then 1 else 0
      {
        TimerSet(s.timers, i, t, k);
      }
    }
  }

  lemma ReleaseCounts(s: State, m: Module, i: nat)
    requires CountsOk(s) && i < |s.timers|
    ensures CountsOk(ReleaseTimer(s, m, i))
  {
    if Owns(s.timers[i], m) {
      var t := Released(s.timers[i]);
      hide Count, TimerFlags;
      if m in s.counts {
        NoDecrementSuppressed(s, m, i);
      }
      forall k | k in s.counts
        ensures Count(TimerFlags(s.timers[i := t], k)) == Count(TimerFlags(s.timers, k)) - if k == m then 1 else 0
      {
        TimerSet(s.timers, i, t, k);
      }
    }
  }

  lemma {:induction false} CleanTimersCounts(s: State, m: Module, n: nat)
    requires CountsOk(s) && n <= |s.timers|
    ensures CountsOk(CleanTimers(s, m, n))
  {
    if n > 0 {
      CleanTimersCounts(s, m, n - 1);
      ReleaseCounts(CleanTimers(s, m, n - 1), m, n - 1);
    }
  }

  lemma SubscribeCounts(s: State, m: Module, topic: Option<string>)
    requires CountsOk(s)
    ensures CountsOk(Subscribe(s, m, topic).st)
  {
    hide Count, SubFlags, ActiveFlags, Stored, Subscribed, FirstFree;
    var i := FirstFree(s.subs);
    if topic != None && topic.value != "" && m in s.counts && !Subscribed(s.subs, m, topic.value) && i < |s.subs| {
      assert !s.subs[i].active by { FreeSlot(s.subs); }
      NewSubCounts(s, m, i, Subscription(Stored(topic.value), Some(m), true));
    }
  }

  lemma FreeSlot(subs: seq<Subscription>)
    ensures FirstFree(subs) <= |subs| && (FirstFree(subs) < |subs| ==> !subs[FirstFree(subs)].active)
  {
  }

  lemma NewSubCounts(s: State, m: Module, i: nat, b: Subscription)
    requires CountsOk(s) && i < |s.subs| && !s.subs[i].active && b.active && b.owner == Some(m) && m in s.counts
    ensures CountsOk(IncMessaging(SetSub(s, i, b).(subCount := (s.subCount + 1) % 65536), m))
  {
    hide Count, SubFlags, ActiveFlags;
    SubSet(s.subs, i, b, m);
    CountBound(ActiveFlags(s.subs));
    assert |ActiveFlags(s.subs)| == |s.subs| by { FlagsLength(s.subs); }
    forall k | k in s.counts
      ensures Count(SubFlags(s.subs[i := b], k)) == Count(SubFlags(s.subs, k)) + if k == m then 1 else 0
    {
      SubSet(s.subs, i, b, k);
    }
  }

  lemma FlagsLength(subs: seq<Subscription>)
    ensures |ActiveFlags(subs)| == |subs|
  {
  }

  lemma CountBound(bs: seq<bool>)
    ensures Count(bs) <= |bs|
  {
  }

  lemma DropCounts(s: State, m: Module, i: nat)
    requires CountsOk(s) && i < |s.subs|
    ensures CountsOk(DropSub(s, m, i))
  {
    if IsFor(s.subs[i], m) {
      var b := Dropped(s.subs[i]);
      hide Count, SubFlags, ActiveFlags;
      SubSet(s.subs, i, b, m);
      assert 0 < Count(ActiveFlags(s.subs)) <= 10 by {
        CountBound(ActiveFlags(s.subs));
        CountPositive(ActiveFlags(s.subs), i);
      }
      if m in s.counts {
        NoDecrementSuppressed(s, m, i);
      }
      forall k | k in s.counts
        ensures Count(SubFlags(s.subs[i := b], k)) == Count(SubFlags(s.subs, k)) - if k == m then 1 else 0
      {
        SubSet(s.subs, i, b, k);
      }
    }
  }

  lemma {:induction false} CleanSubsCounts(s: State, m: Module, n: nat)
    requires CountsOk(s) && n <= |s.subs|
    ensures CountsOk(CleanSubs(s, m, n))
  {
    if n > 0 {
      CleanSubsCounts(s, m, n - 1);
      DropCounts(CleanSubs(s, m, n - 1), m, n - 1);
    }
  }

  lemma CleanupCounts(s: State, m: Module)
    requires CountsOk(s)
    ensures CountsOk(Cleanup(s, m)) && CountsOk(Unregister(s, m))
  {
    hide Count, SubFlags, ActiveFlags, TimerFlags;
    CleanTimersCounts(s, m, |s.timers|);
    var s1 := CleanTimers(s, m, |s.timers|);
    CleanSubsCounts(s1, m, |s1.subs|);
  }

  // What cleanup leaves in the tables

  lemma {:induction false} CleanTimersEffect(s: State, m: Module, n: nat)
    requires n <= |s.timers|
    ensures var r := CleanTimers(s, m, n);
            && r == s.(timers := r.timers, counts := r.counts) && r.counts.Keys == s.counts.Keys
            && forall j :: 0 <= j < |s.timers| ==>
                 r.timers[j] == if j < n && Owns(s.timers[j], m) then Released(s.timers[j]) else s.timers[j]
  {
    if n > 0 {
      CleanTimersEffect(s, m, n - 1);
    }
  }

  lemma {:induction false} CleanSubsEffect(s: State, m: Module, n: nat)
    requires n <= |s.subs|
    ensures var r := CleanSubs(s, m, n);
            && r == s.(subs := r.subs, counts := r.counts, subCount := r.subCount) && r.counts.Keys == s.counts.Keys
            && forall j :: 0 <= j < |s.subs| ==>
                 r.subs[j] == if j < n && IsFor(s.subs[j], m) then Dropped(s.subs[j]) else s.subs[j]
  {
    if n > 0 {
      CleanSubsEffect(s, m, n - 1);
    }
  }

  /** After cleanup no slot of either table names the module; every other slot is as it was. */
  lemma CleanupEffect(s: State, m: Module)
    ensures var r := Cleanup(s, m);
            && r == s.(timers := r.timers, subs := r.subs, counts := r.counts, subCount := r.subCount)
            && r.counts.Keys == s.counts.Keys && |r.timers| == |s.timers| && |r.subs| == |s.subs|
            && (forall j :: 0 <= j < |s.timers| ==>
                  r.timers[j] == if Owns(s.timers[j], m) then Released(s.timers[j]) else s.timers[j])
            && (forall j :: 0 <= j < |s.subs| ==>
                  r.subs[j] == if IsFor(s.subs[j], m) then Dropped(s.subs[j]) else s.subs[j])
  {
    CleanTimersEffect(s, m, |s.timers|);
    var s1 := CleanTimers(s, m, |s.timers|);
    CleanSubsEffect(s1, m, |s1.subs|);
  }

  lemma {:induction false} CleanTimersIdle(s: State, m: Module, n: nat)
    requires n <= |s.timers| && forall j :: 0 <= j < |s.timers| ==> !Owns(s.timers[j], m)
    ensures CleanTimers(s, m, n) == s
  {
    if n > 0 {
      CleanTimersIdle(s, m, n - 1);
    }
  }

  lemma {:induction false} CleanSubsIdle(s: State, m: Module, n: nat)
    requires n <= |s.subs| && forall j :: 0 <= j < |s.subs| ==> !IsFor(s.subs[j], m)
    ensures CleanSubs(s, m, n) == s
  {
    if n > 0 {
      CleanSubsIdle(s, m, n - 1);
    }
  }

  /** Cleanup is run twice when a container ends; the second run does nothing. */
  lemma CleanupTwice(s: State, m: Module)
    ensures Cleanup(Cleanup(s, m), m) == Cleanup(s, m)
  {
    CleanupEffect(s, m);
    var r := Cleanup(s, m);
    CleanTimersIdle(r, m, |r.timers|);
    CleanSubsIdle(r, m, |r.subs|);
  }
}
