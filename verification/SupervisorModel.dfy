/**
 * The cluster supervisor as a step system: the supervisor's fields together with the
 * processes, timers and signals that its injected dependencies manage.
 *
 * Time is a monotone function `clock` from the number of readings taken so far to
 * milliseconds, so two `now()` calls inside one step may return different times.
 */
module SupervisorModel {
  import opened Wrappers
  import opened SupervisorConfig

  type Clock = nat -> real

  ghost predicate Monotone(clock: Clock) {
    forall i: nat, j: nat :: i <= j ==> clock(i) <= clock(j)
  }

  datatype Child = Child(startedAt: real, draining: bool, killTimer: Option<nat>)

  /** What a timer's callback does: the four callbacks that the supervisor schedules. */
  datatype Action = RestoreFloor | Unpause | DrainKill(id: nat) | ShutdownDeadline

  /** `due` is the earliest moment at which the timer may fire. */
  datatype Timer = Timer(due: real, action: Action)

  datatype Signal = SIGTERM | SIGKILL

  datatype Sent = Sent(id: nat, signal: Signal, at: real)

  datatype State = State(
    // the supervisor's own fields
    children: map<nat, Child>,
    nextId: nat,
    shuttingDown: bool,
    paused: bool,
    lastScaleAt: Option<real>,       // None: minus infinity
    crashTimes: seq<real>,
    onCompleteSet: bool,
    // what its dependencies hold
    readings: nat,
    timers: map<nat, Timer>,
    nextTimer: nat,
    running: map<nat, real>,         // processes alive, with the start time their exit callback captured
    sent: seq<Sent>,                 // every signal sent, oldest first
    completions: nat,                // how often the shutdown callback ran
    // history, never read by a decision
    scaledAt: seq<real>,             // when each autoscale action was recorded
    fastCrashes: seq<real>)          // every fast crash since the counter was last reset

  function LiveIds(children: map<nat, Child>): set<nat> {
    set id | id in children && !children[id].draining
  }

  function Live(children: map<nat, Child>): nat {
    |LiveIds(children)|
  }

  ghost function Now(clock: Clock, s: State): real {
    clock(s.readings)
  }

  ghost function Read(s: State): State {
    s.(readings := s.readings + 1)
  }

  ghost function SetTimer(clock: Clock, s: State, action: Action, ms: real): State {
    s.(timers := s.timers[s.nextTimer := Timer(Now(clock, s) + ms, action)], nextTimer := s.nextTimer + 1)
  }

  // ----- spawning -----

  ghost function Spawn(clock: Clock, s: State): State {
    if s.shuttingDown || s.paused then s
    else
      var at := clock(s.readings + 1);
      s.(readings := s.readings + 1,
         nextId := s.nextId + 1,
         running := s.running[s.nextId := at],
         children := s.children[s.nextId := Child(at, false, None)])
  }

  /** What spawning never touches. */
  ghost predicate SameButSpawned(s: State, r: State) {
    r == s.(children := r.children, running := r.running, nextId := r.nextId, readings := r.readings)
  }

  ghost function SpawnMany(clock: Clock, s: State, n: nat): (r: State)
    ensures SameButSpawned(s, r)
    decreases n
  {
    if n == 0 then s else SpawnMany(clock, Spawn(clock, s), n - 1)
  }

  /** How many children the floor is short of. */
  function Missing(cfg: Config, s: State): nat {
    if Live(s.children) < cfg.min then cfg.min - Live(s.children) else 0
  }

  ghost function EnsureFloor(cfg: Config, clock: Clock, s: State): State {
    if s.shuttingDown || s.paused then s else SpawnMany(clock, s, Missing(cfg, s))
  }

  // ----- crashes -----

  /** Drops the leading entries below the cutoff, and only those. */
  function DropOld(times: seq<real>, cutoff: real): seq<real> {
    if times != [] && times[0] < cutoff then DropOld(times[1..], cutoff) else times
  }

  ghost function RecordCrash(cfg: Config, clock: Clock, s: State): State {
    var now := clock(s.readings + 1);
    s.(readings := s.readings + 1,
       crashTimes := DropOld(s.crashTimes + [now], now - cfg.crashWindowMs),
       fastCrashes := s.fastCrashes + [now])
  }

  ghost function AfterFastCrash(cfg: Config, clock: Clock, s: State): State {
    var r := RecordCrash(cfg, clock, s);
    if |r.crashTimes| >= cfg.max * 3 then
      SetTimer(clock, r.(paused := true), Unpause, cfg.crashPauseMs)
    else
      SetTimer(clock, r, RestoreFloor, cfg.crashBackoffMs)
  }

  // ----- exits -----

  function ClearTimer(timers: map<nat, Timer>, t: Option<nat>): map<nat, Timer> {
    if t.Some? then timers - {t.value} else timers
  }

  ghost function Forget(s: State, id: nat): State {
    var killTimer := if id in s.children then s.children[id].killTimer else None;
    s.(children := s.children - {id}, timers := ClearTimer(s.timers, killTimer))
  }

  ghost function FinishShutdown(s: State): State {
    if s.onCompleteSet then s.(onCompleteSet := false, completions := s.completions + 1) else s
  }

  ghost function AfterExit(cfg: Config, clock: Clock, s: State, id: nat, startedAt: real): State {
    var f := Forget(s, id);
    if s.shuttingDown then
      if f.children == map[] then FinishShutdown(f) else f
    else if id in s.children && s.children[id].draining then
      f
    else
      var r := Read(f);
      if Now(clock, r) - startedAt < cfg.crashFastMs
      then AfterFastCrash(cfg, clock, r)
      else EnsureFloor(cfg, clock, r)
  }

  // ----- scaling -----

  /** Newest first, the later id winning a tie: the head of the sorted candidate list. */
  predicate IsNewest(children: map<nat, Child>, id: nat) {
    && id in LiveIds(children)
    && forall other :: other in LiveIds(children) && other != id ==>
         || children[other].startedAt < children[id].startedAt
         || (children[other].startedAt == children[id].startedAt && other < id)
  }

  ghost function Drain(cfg: Config, clock: Clock, s: State, id: nat): State
    requires id in s.children
  {
    s.(children := s.children[id := Child(s.children[id].startedAt, true, Some(s.nextTimer))],
       sent := s.sent + [Sent(id, SIGTERM, Now(clock, s))],
       timers := s.timers[s.nextTimer := Timer(Now(clock, s) + cfg.drainMs, DrainKill(id))],
       nextTimer := s.nextTimer + 1)
  }

  ghost function DrainOne(cfg: Config, clock: Clock, s: State): State {
    if exists id :: IsNewest(s.children, id) then
      var id :| IsNewest(s.children, id);
      Drain(cfg, clock, s, id)
    else s
  }

  ghost function MarkScaled(clock: Clock, s: State): State {
    var at := clock(s.readings + 1);
    s.(readings := s.readings + 1, lastScaleAt := Some(at), scaledAt := s.scaledAt + [at])
  }

  predicate Cooled(cfg: Config, last: Option<real>, now: real) {
    last.None? || now - last.value >= cfg.cooldownMs
  }

  ghost function AfterTick(cfg: Config, clock: Clock, s: State, util: real): State {
    if s.shuttingDown || s.paused then s
    else
      var f := EnsureFloor(cfg, clock, s);
      var r := Read(f);
      var live := Live(r.children);
      var cooled := Cooled(cfg, r.lastScaleAt, Now(clock, r));
      if util >= cfg.cpuHigh && live < cfg.max && cooled then
        MarkScaled(clock, Spawn(clock, r))
      else if util <= cfg.cpuLow && live > cfg.min && cooled then
        MarkScaled(clock, DrainOne(cfg, clock, r))
      else r
  }

  // ----- shutdown -----

  /** One signal to each tracked child below `bound`, in spawn order. */
  function SignalAll(children: map<nat, Child>, bound: nat, signal: Signal, at: real): seq<Sent> {
    if bound == 0 then []
    else SignalAll(children, bound - 1, signal, at)
         + if bound - 1 in children then [Sent(bound - 1, signal, at)] else []
  }

  ghost function SendAll(clock: Clock, s: State, signal: Signal): State {
    s.(sent := s.sent + SignalAll(s.children, s.nextId, signal, Now(clock, s)))
  }

  ghost function AfterShutdown(cfg: Config, clock: Clock, s: State): State {
    if s.shuttingDown then s
    else
      var k := SendAll(clock, s.(shuttingDown := true, onCompleteSet := true), SIGTERM);
      if k.children == map[] then FinishShutdown(k)
      else SetTimer(clock, k, ShutdownDeadline, cfg.drainMs)
  }

  // ----- timers -----

  ghost function RunAction(cfg: Config, clock: Clock, s: State, action: Action): State {
    match action
    case RestoreFloor => EnsureFloor(cfg, clock, s)
    case Unpause => EnsureFloor(cfg, clock, s.(paused := false, crashTimes := [], fastCrashes := []))
    case DrainKill(id) =>
      if id in s.children then s.(sent := s.sent + [Sent(id, SIGKILL, Now(clock, s))]) else s
    case ShutdownDeadline => FinishShutdown(SendAll(clock, s, SIGKILL))
  }

  // ----- the step system -----

  /** `Wait` is the passage of time; `Exit` is a process dying; `Fire` is a timer coming due. */
  datatype Step = Wait | Tick(util: real) | Floor | Exit(id: nat) | Fire(timer: nat) | Shutdown

  const EMPTY := State(map[], 1, false, false, None, [], false, 0, map[], 0, map[], [], 0, [], [])

  ghost function Started(cfg: Config, clock: Clock): State
    requires cfg.Valid()
  {
    SpawnMany(clock, EMPTY, cfg.min)
  }

  ghost predicate Enabled(clock: Clock, s: State, step: Step) {
    match step
    case Exit(id) => id in s.running
    case Fire(t) => t in s.timers && s.timers[t].due <= Now(clock, s)
    case _ => true
  }

  ghost function Apply(cfg: Config, clock: Clock, s: State, step: Step): State
    requires Enabled(clock, s, step)
  {
    match step
    case Wait => Read(s)
    case Tick(util) => AfterTick(cfg, clock, s, util)
    case Floor => EnsureFloor(cfg, clock, s)
    case Exit(id) => AfterExit(cfg, clock, s.(running := s.running - {id}), id, s.running[id])
    case Fire(t) => RunAction(cfg, clock, s.(timers := s.timers - {t}), s.timers[t].action)
    case Shutdown => AfterShutdown(cfg, clock, s)
  }
}
