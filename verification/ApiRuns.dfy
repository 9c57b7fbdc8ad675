/**
 What every run of the event, messaging and timer interface keeps. Modules are registered, call the
 interface, and are unregistered; timers fire at any moment; handles are never reused.
 */
module ApiRuns {
  import opened Wrappers
  import opened EventQueue
  import opened ApiSpec

  datatype Op =
    | OpRegister(m: Module, mallocOk: bool)
    | OpCleanup(m: Module)
    | OpUnregister(m: Module)
    | OpEnter(m: Module)
    | OpExit(m: Module)
    | OpCreate(m: Module, id: int, initOk: bool)
    | OpDelete(m: Module, id: int)
    | OpStart(m: Module, id: int, interval: int, isPeriodic: int, now: nat, startOk: bool)
    | OpStop(m: Module, id: int)
    | OpFire(slot: nat, now: nat)
    | OpSubscribe(m: Module, topic: Option<string>)
    | OpPublish(m: Module, topic: Option<string>, content: Option<string>, payload: bool, payloadLen: int,
                offers: nat -> (nat, nat, nat))
    | OpGet(m: Module)
    | OpFree(m: Module, t: nat, c: nat, p: nat)

  /** The interface with its history: which modules run, which ran, which of them never were registered (`plain`:
      their containers lack the capability, but the calls are there for them), every event accepted and delivered so
      far, the blocks each module was handed and has not freed, and the true uptime at which each timer slot last
      began an interval. */
  datatype Sys = Sys(st: State, alive: set<Module>, known: set<Module>, plain: set<Module>, accepted: seq<Event>,
                     delivered: seq<(Module, Event)>, held: map<Module, set<nat>>, started: map<nat, nat>)

  function Start(): Sys { Sys(Initial(), {}, {}, {}, [], [], map[], map[]) }

  function Held(s: Sys, m: Module): set<nat> { if m in s.held then s.held[m] else {} }

  /** A module calls only while it runs, and begins once. Only a registered module is cleaned up and unregistered;
      a plain one just ends. */
  predicate Enabled(s: Sys, op: Op) {
    match op
    case OpRegister(m, _) => m !in s.known
    case OpEnter(m) => m !in s.known
    case OpCleanup(m) => m in s.alive && m !in s.plain
    case OpUnregister(m) => m in s.alive && m !in s.plain
    case OpExit(m) => m in s.alive && m in s.plain
    case OpFire(_, _) => true
    case _ => op.m in s.alive
  }

  function Call(s: State, op: Op): Res {
    match op
    case OpRegister(m, ok) => Only(Register(s, m, ok), 0)
    case OpCleanup(m) => Only(Cleanup(s, m), 0)
    case OpUnregister(m) => Only(Unregister(s, m), 0)
    case OpEnter(_) => Only(s, 0)
    case OpExit(_) => Only(s, 0)
    case OpCreate(m, id, ok) => CreateTimer(s, m, id, ok)
    case OpDelete(m, id) => DeleteTimer(s, m, id)
    case OpStart(m, id, interval, p, now, ok) => StartTimer(s, m, id, interval, p, now, ok)
    case OpStop(m, id) => StopTimer(s, m, id)
    case OpFire(i, now) => FireTimer(s, i, now)
    case OpSubscribe(m, topic) => Subscribe(s, m, topic)
    case OpPublish(m, topic, content, payload, len, offers) => Publish(s, topic, content, payload, len, offers)
    case OpGet(m) => GetEvent(s, m)
    case OpFree(m, t, c, p) => FreeData(s, m, t, c, p)
  }

  predicate Starts(s: State, op: Op)
    requires op.OpStart?
  {
    !BadId(s, op.id) && Owns(s.timers[op.id - 1], op.m) && 0 < op.interval <= 65535
  }

  predicate Restarts(s: State, op: Op)
    requires op.OpFire?
  {
    op.slot < |s.timers| && s.timers[op.slot].inUse && s.timers[op.slot].owner != None && s.timers[op.slot].periodic
  }

  /** One step; an operation that cannot happen changes nothing. */
  function Step(s: Sys, op: Op): Sys {
    if !Enabled(s, op) then s
    else
      var r := Call(s.st, op);
      var begins, ends := op.OpRegister? || op.OpEnter?, op.OpUnregister? || op.OpExit?;
      var alive := if begins then s.alive + {op.m} else if ends then s.alive - {op.m} else s.alive;
      var known := if begins then s.known + {op.m} else s.known;
      var plain := if op.OpEnter? then s.plain + {op.m} else s.plain;
      var held := if op.OpGet? && r.delivered.Some? then s.held[op.m := Held(s, op.m) + Blocks(r.delivered.value)]
                  else if op.OpFree? then s.held[op.m := Held(s, op.m) - {op.t, op.c, op.p}]
                  else s.held;
      var delivered := if op.OpGet? && r.delivered.Some? then s.delivered + [(op.m, r.delivered.value)]
                       else s.delivered;
      var started := if op.OpStart? && Starts(s.st, op) then s.started[op.id - 1 := op.now]
                     else if op.OpFire? && Restarts(s.st, op) then s.started[op.slot := op.now] else s.started;
      Sys(r.st, alive, known, plain, s.accepted + r.accepted, delivered, held, started)
  }

  function Run(s: Sys, ops: seq<Op>): Sys {
    if ops == [] then s else Step(Run(s, ops[..|ops| - 1]), ops[|ops| - 1])
  }
}
