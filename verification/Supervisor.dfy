/**
 * The supervisor itself: an object whose methods update its fields in place, each proved to do
 * what the step system says.
 */
module Supervisors {
  import opened Wrappers
  import opened SupervisorConfig
  import opened SupervisorModel
  import opened SupervisorInvariants

  /** The injected dependencies, recording what they were asked to do. */
  class Deps {
    const clock: Clock
    var readings: nat
    var timers: map<nat, Timer>
    var nextTimer: nat
    var running: map<nat, real>
    var sent: seq<Sent>
    var completions: nat

    constructor (clock: Clock)
      ensures this.clock == clock && readings == 0 && nextTimer == 0 && completions == 0
      ensures timers == map[] && running == map[] && sent == []
    {
      this.clock, readings, timers, nextTimer := clock, 0, map[], 0;
      running, sent, completions := map[], [], 0;
    }

    method Now() returns (now: real)
      modifies `readings
      ensures readings == old(readings) + 1 && now == clock(readings)
    {
      readings := readings + 1;
      now := clock(readings);
    }

    /** Starts a process whose exit callback has captured `id` and `startedAt`. */
    method Spawn(id: nat, startedAt: real)
      modifies `running
      ensures running == old(running)[id := startedAt]
    {
      running := running[id := startedAt];
    }

    method Kill(id: nat, signal: Signal)
      modifies `sent
      ensures sent == old(sent) + [Sent(id, signal, clock(readings))]
    {
      sent := sent + [Sent(id, signal, clock(readings))];
    }

    method SetTimer(action: Action, ms: real) returns (t: nat)
      modifies `timers, `nextTimer
      ensures t == old(nextTimer) && nextTimer == t + 1
      ensures timers == old(timers)[t := Timer(clock(readings) + ms, action)]
    {
      t := nextTimer;
      timers := timers[t := Timer(clock(readings) + ms, action)];
      nextTimer := nextTimer + 1;
    }

    method Clear(t: nat)
      modifies `timers
      ensures timers == old(timers) - {t}
    {
      timers := timers - {t};
    }
  }

  class Supervisor {
    const cfg: Config
    const deps: Deps
    var children: map<nat, Child>
    var nextId: nat
    var shuttingDown: bool
    var paused: bool
    var lastScaleAt: Option<real>
    var crashTimes: seq<real>
    var onCompleteSet: bool
    ghost var scaledAt: seq<real>
    ghost var fastCrashes: seq<real>

    ghost function View(): State
      reads this, deps
    {
      State(children, nextId, shuttingDown, paused, lastScaleAt, crashTimes, onCompleteSet,
            deps.readings, deps.timers, deps.nextTimer, deps.running, deps.sent, deps.completions,
            scaledAt, fastCrashes)
    }

    /** Ids are handed out in order, so the map's insertion order is the order of ids. */
    ghost predicate Valid()
      reads this
    {
      cfg.Valid() && forall id :: id in children ==> id < nextId
    }

    constructor (cfg: Config, deps: Deps)
      requires cfg.Valid()
      requires deps.readings == 0 && deps.timers == map[] && deps.nextTimer == 0
      requires deps.running == map[] && deps.sent == [] && deps.completions == 0
      ensures Valid() && this.cfg == cfg && this.deps == deps && View() == EMPTY
    {
      this.cfg, this.deps := cfg, deps;
      children, nextId, shuttingDown, paused := map[], 1, false, false;
      lastScaleAt, crashTimes, onCompleteSet, scaledAt, fastCrashes := None, [], false, [], [];
    }

    method LiveCount() returns (n: nat)
      requires Valid()
      ensures n == Live(children)
    {
      n := 0;
      for i := 0 to nextId
        invariant n == |set id | id in children && id < i && !children[id].draining|
      {
        ghost var before := set id | id in children && id < i && !children[id].draining;
        ghost var upTo := set id | id in children && id < i + 1 && !children[id].draining;
        if i in children && !children[i].draining {
          assert upTo == before + {i};
          n := n + 1;
        } else {
          assert upTo == before;
        }
      }
      assert LiveIds(children) == set id | id in children && id < nextId && !children[id].draining;
    }

    method Start()
      requires Valid() && View() == EMPTY
      modifies this, deps
      ensures Valid() && View() == Started(cfg, deps.clock)
    {
      for i := 0 to cfg.min
        invariant Valid() && !shuttingDown && !paused
        invariant SpawnMany(deps.clock, View(), cfg.min - i) == Started(cfg, deps.clock)
      {
        SpawnChild();
      }
    }

    method SpawnChild()
      requires Valid()
      modifies this, deps
      ensures Valid() && View() == Spawn(deps.clock, old(View()))
    {
      if shuttingDown || paused {
        return;
      }
      var id := nextId;
      nextId := nextId + 1;
      var startedAt := deps.Now();
      deps.Spawn(id, startedAt);
      children := children[id := Child(startedAt, false, None)];
    }

    method EnsureFloor()
      requires Valid()
      modifies this, deps
      ensures Valid() && View() == SupervisorModel.EnsureFloor(cfg, deps.clock, old(View()))
    {
      hide Live, LiveIds;
      var live := LiveCount();
      while !shuttingDown && !paused && live < cfg.min
        invariant Valid() && live == Live(children)
        invariant SupervisorModel.EnsureFloor(cfg, deps.clock, View())
               == SupervisorModel.EnsureFloor(cfg, deps.clock, old(View()))
        decreases cfg.min - live
      {
        LiveAfterAdding(children, nextId, Child(deps.clock(deps.readings + 1), false, None));
        SpawnChild();
        live := LiveCount();
      }
    }

    method RecordCrash() returns (recent: nat)
      modifies this, deps
      ensures View() == SupervisorModel.RecordCrash(cfg, deps.clock, old(View()))
      ensures recent == |crashTimes|
    {
      var now := deps.Now();
      crashTimes := crashTimes + [now];
      fastCrashes := fastCrashes + [now];
      var cutoff := now - cfg.crashWindowMs;
      while |crashTimes| > 0 && crashTimes[0] < cutoff
        invariant DropOld(crashTimes, cutoff) == DropOld(old(crashTimes) + [now], cutoff)
        invariant View() == old(View()).(readings := deps.readings, crashTimes := crashTimes, fastCrashes := fastCrashes)
        invariant deps.readings == old(deps.readings) + 1 && fastCrashes == old(fastCrashes) + [now]
        decreases |crashTimes|
      {
        crashTimes := crashTimes[1..];
      }
      recent := |crashTimes|;
    }

    /** The opening lines of `OnExit`: the child leaves the map and its kill timer is cleared. */
    method Untrack(id: nat) returns (child: Option<Child>)
      requires Valid()
      modifies this`children, deps`timers
      ensures Valid() && View() == Forget(old(View()), id)
      ensures child == if id in old(children) then Some(old(children)[id]) else None
    {
      child := if id in children then Some(children[id]) else None;
      children := children - {id};
      if child.Some? && child.value.killTimer.Some? {
        deps.Clear(child.value.killTimer.value);
      }
    }

    /** The exit callback, with the id and start time it captured when the process was spawned. */
    method OnExit(id: nat, startedAt: real)
      requires Valid()
      modifies this, deps
      ensures Valid() && View() == AfterExit(cfg, deps.clock, old(View()), id, startedAt)
    {
      hide SupervisorModel.EnsureFloor, AfterFastCrash;
      var child := Untrack(id);
      if shuttingDown {
        if |children| == 0 {
          FinishShutdown();
        }
        return;
      }
      if child.Some? && child.value.draining {
        return;
      }
      var now := deps.Now();
      if now - startedAt < cfg.crashFastMs {
        CountCrash();
        return;
      }
      EnsureFloor();
    }

    /** The fast-exit branch of `OnExit`: respawn later, or pause on a crash loop. */
    method CountCrash()
      requires Valid()
      modifies this, deps
      ensures Valid() && View() == AfterFastCrash(cfg, deps.clock, old(View()))
    {
      var recent := RecordCrash();
      if recent >= cfg.max * 3 {
        paused := true;
        var _ := deps.SetTimer(Unpause, cfg.crashPauseMs);
        return;
      }
      var _ := deps.SetTimer(RestoreFloor, cfg.crashBackoffMs);
    }

    /** The head of the candidate list, filtered for live children and sorted newest first. */
    method NewestLive() returns (candidate: Option<nat>)
      requires Valid()
      ensures candidate.None? ==> LiveIds(children) == {}
      ensures candidate.Some? ==> IsNewest(children, candidate.value)
    {
      candidate := None;
      for i := 0 to nextId
        invariant candidate.None? ==> forall id :: id in LiveIds(children) ==> id >= i
        invariant candidate.Some? ==>
          && candidate.value in LiveIds(children) && candidate.value < i
          && forall other :: other in LiveIds(children) && other < i && other != candidate.value ==>
               || children[other].startedAt < children[candidate.value].startedAt
               || (children[other].startedAt == children[candidate.value].startedAt && other < candidate.value)
      {
        if i in children && !children[i].draining {
          if candidate.None? || children[i].startedAt >= children[candidate.value].startedAt {
            candidate := Some(i);
          }
        }
      }
    }

    method DrainOne()
      requires Valid()
      modifies this, deps
      ensures Valid() && View() == SupervisorModel.DrainOne(cfg, deps.clock, old(View()))
    {
      var candidate := NewestLive();
      if candidate.None? {
        return;
      }
      var id := candidate.value;
      assert forall other :: IsNewest(children, other) ==> other == id;
      children := children[id := children[id].(draining := true)];
      deps.Kill(id, SIGTERM);
      var t := deps.SetTimer(DrainKill(id), cfg.drainMs);
      children := children[id := children[id].(killTimer := Some(t))];
    }

    /** One autoscale decision on a CPU sample. */
    method Tick(util: real)
      requires Valid()
      modifies this, deps
      ensures Valid() && View() == AfterTick(cfg, deps.clock, old(View()), util)
    {
      if shuttingDown || paused {
        return;
      }
      EnsureFloor();
      var live := LiveCount();
      var now := deps.Now();
      var cooled := lastScaleAt.None? || now - lastScaleAt.value >= cfg.cooldownMs;
      if util >= cfg.cpuHigh && live < cfg.max && cooled {
        SpawnChild();
        Scaled();
      } else if util <= cfg.cpuLow && live > cfg.min && cooled {
        DrainOne();
        Scaled();
      }
    }

    method Scaled()
      requires Valid()
      modifies this, deps
      ensures Valid() && View() == MarkScaled(deps.clock, old(View()))
    {
      var now := deps.Now();
      lastScaleAt := Some(now);
      scaledAt := scaledAt + [now];
    }

    method SignalEveryChild(signal: Signal)
      requires Valid()
      modifies deps`sent
      ensures View() == SendAll(deps.clock, old(View()), signal)
    {
      for i := 0 to nextId
        invariant deps.sent == old(deps.sent) + SignalAll(children, i, signal, deps.clock(deps.readings))
      {
        if i in children {
          deps.Kill(i, signal);
        }
      }
    }

    method Shutdown()
      requires Valid()
      modifies this, deps
      ensures Valid() && View() == AfterShutdown(cfg, deps.clock, old(View()))
    {
      if shuttingDown {
        return;
      }
      hide SignalAll;
      shuttingDown := true;
      onCompleteSet := true;
      SignalEveryChild(SIGTERM);
      if |children| == 0 {
        FinishShutdown();
        return;
      }
      var _ := deps.SetTimer(ShutdownDeadline, cfg.drainMs);
    }

    method FinishShutdown()
      requires Valid()
      modifies this, deps
      ensures Valid() && View() == SupervisorModel.FinishShutdown(old(View()))
    {
      var done := onCompleteSet;
      onCompleteSet := false;
      if done {
        deps.completions := deps.completions + 1;
      }
    }

    /** The callback of a timer that has come due. */
    method OnTimer(action: Action)
      requires Valid()
      modifies this, deps
      ensures Valid() && View() == RunAction(cfg, deps.clock, old(View()), action)
    {
      match action
      case RestoreFloor => EnsureFloor();
      case Unpause =>
        paused := false;
        crashTimes := [];
        fastCrashes := [];
        EnsureFloor();
      case DrainKill(id) =>
        if id in children {
          deps.Kill(id, SIGKILL);
        }
      case ShutdownDeadline =>
        SignalEveryChild(SIGKILL);
        FinishShutdown();
    }
  }
}
