/** What holds over whole runs of the supervisor, from `start()` on, under any interleaving of its steps. */
module SupervisorRuns {
  import opened SupervisorConfig
  import opened SupervisorModel
  import opened SupervisorInvariants
  import opened SupervisorSteps

  ghost predicate Next(cfg: Config, clock: Clock, s: State, r: State) {
    exists step :: Enabled(clock, s, step) && r == Apply(cfg, clock, s, step)
  }

  ghost predicate Run(cfg: Config, clock: Clock, trace: seq<State>) {
    && cfg.Valid() && Monotone(clock)
    && trace != [] && trace[0] == Started(cfg, clock)
    && forall i :: 0 <= i < |trace| - 1 ==> Next(cfg, clock, trace[i], trace[i + 1])
  }

  lemma {:induction false} RunKeeps(cfg: Config, clock: Clock, trace: seq<State>, i: nat)
    requires Run(cfg, clock, trace) && i < |trace|
    ensures Inv(cfg, clock, trace[i])
  {
    if i == 0 {
      StartedHolds(cfg, clock);
    } else {
      RunKeeps(cfg, clock, trace, i - 1);
      assert Next(cfg, clock, trace[i - 1], trace[i - 1 + 1]);
      var step :| Enabled(clock, trace[i - 1], step) && trace[i] == Apply(cfg, clock, trace[i - 1], step);
      StepKeeps(cfg, clock, trace[i - 1], step);
    }
  }

  // ----- the floor -----

  /** In no reachable state is the floor silently lost, and no pause is without its end. */
  lemma FloorIsNeverLost(cfg: Config, clock: Clock, trace: seq<State>, i: nat)
    requires Run(cfg, clock, trace) && i < |trace|
    ensures var s := trace[i];
            && (s.paused ==> exists t :: t in s.timers && s.timers[t].action == Unpause)
            && (!s.shuttingDown && Live(s.children) < cfg.min ==>
                  exists t :: t in s.timers && s.timers[t].action in {RestoreFloor, Unpause})
  {
    RunKeeps(cfg, clock, trace, i);
    var s := trace[i];
    if s.paused {
      var t :| t in s.timers && s.timers[t].action in {Unpause};
      assert s.timers[t].action == Unpause;
    }
  }

  /** When such a timer comes due the floor is restored on the spot, unless a pause has begun meanwhile. */
  lemma DueTimerRestoresFloor(cfg: Config, clock: Clock, trace: seq<State>, i: nat, t: nat)
    requires Run(cfg, clock, trace) && i < |trace| && Enabled(clock, trace[i], Fire(t))
    requires !trace[i].shuttingDown
    ensures var s := trace[i];
            && (s.timers[t].action == Unpause || (s.timers[t].action == RestoreFloor && !s.paused) ==>
                  Live(Apply(cfg, clock, s, Fire(t)).children) >= cfg.min)
            && (s.timers[t].action == Unpause ==> !Apply(cfg, clock, s, Fire(t)).paused)
  {
    RunKeeps(cfg, clock, trace, i);
    var s := trace[i];
    if s.timers[t].action.RestoreFloor? && !s.paused {
      FiredKeeps(cfg, clock, s, t);
      EnsureFloorKeeps(cfg, clock, s.(timers := s.timers - {t}));
    } else if s.timers[t].action.Unpause? {
      var q := s.(paused := false, crashTimes := [], fastCrashes := []);
      FiredKeeps(cfg, clock, q, t);
      EnsureFloorKeeps(cfg, clock, q.(timers := q.timers - {t}));
    }
  }

  // ----- the ceiling -----

  /** With any environment, the pool stays within the machine and crash counting within its budget. */
  lemma PoolStaysBounded(env: Env, cores: EnvNumber, clock: Clock, trace: seq<State>, i: nat)
    requires Run(ParseConfig(env, cores), clock, trace) && i < |trace|
    ensures var cfg := ParseConfig(env, cores);
            && Live(trace[i].children) <= cfg.max <= SafeCores(cores)
            && (!trace[i].paused ==> |trace[i].crashTimes| < 3 * cfg.max)
            && |trace[i].crashTimes| + Live(trace[i].children) <= 4 * cfg.max - 1
  {
    RunKeeps(ParseConfig(env, cores), clock, trace, i);
  }

  // ----- crash loops -----

  /**
   * When a live child dies young, respawning is paused if and only if it already was, or at least
   * 3·max fast crashes since the last reset lie in the window that ends now.
   */
  lemma PausesExactlyOnCrashLoop(cfg: Config, clock: Clock, trace: seq<State>, i: nat, id: nat)
    requires Run(cfg, clock, trace) && i < |trace| && !trace[i].shuttingDown
    requires id in trace[i].children && !trace[i].children[id].draining
    requires clock(trace[i].readings + 1) - trace[i].children[id].startedAt < cfg.crashFastMs
    ensures var s, now := trace[i], clock(trace[i].readings + 2);
            && id in s.running
            && var r := Apply(cfg, clock, s, Exit(id));
            && (r.paused <==> s.paused || |Recent(s.fastCrashes + [now], now - cfg.crashWindowMs)| >= 3 * cfg.max)
            && r.fastCrashes == s.fastCrashes + [now]
            && r.crashTimes == Recent(r.fastCrashes, now - cfg.crashWindowMs)
  {
    hide Inv, Apply, CrashWindow, Recent;
    RunKeeps(cfg, clock, trace, i);
    TrackedIsRunning(cfg, clock, trace[i], id);
    FastCrash(cfg, clock, trace[i], id);
  }

  lemma TrackedIsRunning(cfg: Config, clock: Clock, s: State, id: nat)
    requires Inv(cfg, clock, s) && id in s.children
    ensures id in s.running && s.running[id] == s.children[id].startedAt
    ensures CrashWindow(cfg, Now(clock, s), s.crashTimes, s.fastCrashes)
  {
  }

  lemma FastCrash(cfg: Config, clock: Clock, s: State, id: nat)
    requires Monotone(clock) && CrashWindow(cfg, Now(clock, s), s.crashTimes, s.fastCrashes)
    requires !s.shuttingDown && id in s.children && !s.children[id].draining
    requires id in s.running && clock(s.readings + 1) - s.running[id] < cfg.crashFastMs
    ensures var now := clock(s.readings + 2);
            var r := Apply(cfg, clock, s, Exit(id));
            && r.fastCrashes == s.fastCrashes + [now]
            && r.crashTimes == Recent(r.fastCrashes, now - cfg.crashWindowMs)
            && (r.paused <==> s.paused || |r.crashTimes| >= 3 * cfg.max)
  {
    hide EnsureFloor, Sorted, AllUpTo, DropOld, Recent, WindowOf;
    var now := clock(s.readings + 2);
    UpToLater(s.fastCrashes, clock(s.readings), now);
    WindowSlides(s.fastCrashes, cfg.crashWindowMs, now);
    WindowEndsAtLast(s.fastCrashes, now, cfg.crashWindowMs);
  }

  lemma WindowEndsAtLast(times: seq<real>, now: real, length: real)
    ensures WindowOf(times + [now], length) == Recent(times + [now], now - length)
  {
    assert (times + [now])[|times|] == now;
  }

  // ----- signals -----

  /** What one step sends: it only appends, and kills only children still tracked. */
  lemma StepSends(cfg: Config, clock: Clock, s: State, step: Step)
    requires Enabled(clock, s, step)
    ensures var r := Apply(cfg, clock, s, step);
            && s.sent <= r.sent
            && forall j :: |s.sent| <= j < |r.sent| && r.sent[j].signal == SIGKILL ==>
                 r.sent[j].id in s.children && r.sent[j].id in r.children
  {
    match step
    case Wait =>
    case Floor =>
    case Tick(util) => TickSends(cfg, clock, s, util);
    case Exit(id) => ExitSends(cfg, clock, s.(running := s.running - {id}), id, s.running[id]);
    case Shutdown => SendAllSends(clock, s, SIGTERM);
    case Fire(t) => SendAllSends(clock, s, SIGKILL);
  }

  lemma TickSends(cfg: Config, clock: Clock, s: State, util: real)
    ensures var r := AfterTick(cfg, clock, s, util);
            s.sent <= r.sent && forall j :: |s.sent| <= j < |r.sent| ==> r.sent[j].signal == SIGTERM
  {
  }

  lemma ExitSends(cfg: Config, clock: Clock, s: State, id: nat, startedAt: real)
    ensures AfterExit(cfg, clock, s, id, startedAt).sent == s.sent
  {
  }

  lemma SendAllSends(clock: Clock, s: State, signal: Signal)
    ensures s.sent <= SendAll(clock, s, signal).sent
    ensures var sent := SendAll(clock, s, signal).sent;
            forall j :: |s.sent| <= j < |sent| ==> sent[j].id in s.children && sent[j].signal == signal
  {
    SignalAllReaches(s.children, s.nextId, signal, Now(clock, s));
    var more := SignalAll(s.children, s.nextId, signal, Now(clock, s));
    forall j | |s.sent| <= j < |s.sent + more| ensures (s.sent + more)[j] in more {
      assert (s.sent + more)[j] == more[j - |s.sent|];
    }
  }

  /**
   * Over every run, each SIGKILL that a step sends goes to a child tracked before and after that
   * step, and that child was sent SIGTERM at least `drainMs` earlier.
   */
  lemma NoKillWithoutWarning(cfg: Config, clock: Clock, trace: seq<State>, i: nat, j: nat)
    requires Run(cfg, clock, trace) && i + 1 < |trace|
    requires |trace[i].sent| <= j < |trace[i + 1].sent| && trace[i + 1].sent[j].signal == SIGKILL
    ensures var kill := trace[i + 1].sent[j];
            && kill.id in trace[i].children && kill.id in trace[i + 1].children
            && Warned(trace[i + 1].sent[..j], kill.id, kill.at - cfg.drainMs)
  {
    RunKeeps(cfg, clock, trace, i);
    RunKeeps(cfg, clock, trace, i + 1);
    assert Next(cfg, clock, trace[i], trace[i + 1]);
    var step :| Enabled(clock, trace[i], step) && trace[i + 1] == Apply(cfg, clock, trace[i], step);
    StepSends(cfg, clock, trace[i], step);
  }

  /** A child told to drain has its kill timer pending or has been killed: none drains forever unnoticed. */
  lemma DrainsAreBounded(cfg: Config, clock: Clock, trace: seq<State>, i: nat, id: nat)
    requires Run(cfg, clock, trace) && i < |trace|
    requires id in trace[i].children && trace[i].children[id].draining
    ensures || (exists t :: t in trace[i].timers && trace[i].timers[t].action == DrainKill(id))
            || (exists k :: 0 <= k < |trace[i].sent| && trace[i].sent[k].id == id && trace[i].sent[k].signal == SIGKILL)
  {
    RunKeeps(cfg, clock, trace, i);
    var s := trace[i];
    assert KillTimer(cfg, s.timers, s.nextTimer, s.sent, id, s.children[id].killTimer.value);
  }

  // ----- shutdown -----

  lemma StepDuringShutdown(cfg: Config, clock: Clock, s: State, step: Step)
    requires Enabled(clock, s, step)
    ensures var r := Apply(cfg, clock, s, step);
            s.shuttingDown ==> r.shuttingDown && r.nextId == s.nextId && r.children.Keys <= s.children.Keys
  {
  }

  /** Once shutdown has begun no child is ever spawned again, and it cannot be called off. */
  lemma {:induction false} NoSpawnAfterShutdown(cfg: Config, clock: Clock, trace: seq<State>, i: nat, j: nat)
    requires Run(cfg, clock, trace) && i <= j < |trace| && trace[i].shuttingDown
    ensures trace[j].shuttingDown && trace[j].nextId == trace[i].nextId
    ensures trace[j].children.Keys <= trace[i].children.Keys
    decreases j
  {
    hide Apply;
    if i < j {
      NoSpawnAfterShutdown(cfg, clock, trace, i, j - 1);
      assert Next(cfg, clock, trace[j - 1], trace[j - 1 + 1]);
      var step :| Enabled(clock, trace[j - 1], step) && trace[j] == Apply(cfg, clock, trace[j - 1], step);
      StepDuringShutdown(cfg, clock, trace[j - 1], step);
    }
  }

  /**
   * The completion callback runs at most once over a run and never before shutdown; while it is
   * still owed, a child is alive and the deadline timer is pending.
   */
  lemma CompletesOnce(cfg: Config, clock: Clock, trace: seq<State>, i: nat)
    requires Run(cfg, clock, trace) && i < |trace|
    ensures trace[i].completions <= 1
    ensures !trace[i].shuttingDown ==> trace[i].completions == 0
    ensures trace[i].shuttingDown && trace[i].completions == 0 ==>
              && trace[i].children != map[]
              && exists t :: t in trace[i].timers && trace[i].timers[t].action == ShutdownDeadline
  {
    RunKeeps(cfg, clock, trace, i);
    var s := trace[i];
    if s.onCompleteSet {
      var t :| t in s.timers && s.timers[t].action in {ShutdownDeadline};
      assert s.timers[t].action == ShutdownDeadline;
    }
  }

  /** It has run as soon as the last child exits during shutdown, or the deadline fires, or nobody is left to wait for. */
  lemma CompletesWhenDue(cfg: Config, clock: Clock, trace: seq<State>, i: nat, step: Step)
    requires Run(cfg, clock, trace) && i < |trace| && Enabled(clock, trace[i], step)
    ensures var r := Apply(cfg, clock, trace[i], step);
            && (r.shuttingDown && r.children == map[] ==> r.completions == 1)
            && (step.Fire? && trace[i].timers[step.timer].action == ShutdownDeadline ==> r.completions == 1)
  {
    RunKeeps(cfg, clock, trace, i);
    StepKeeps(cfg, clock, trace[i], step);
  }

  // ----- autoscaling -----

  /** Any two autoscale actions of a run are at least `cooldownMs` apart per action between them. */
  lemma {:induction false} ScalingIsSpaced(cfg: Config, clock: Clock, trace: seq<State>, n: nat, i: nat, j: nat)
    requires Run(cfg, clock, trace) && n < |trace| && i <= j < |trace[n].scaledAt|
    ensures trace[n].scaledAt[j] - trace[n].scaledAt[i] >= (j - i) as real * cfg.cooldownMs
    decreases j
  {
    RunKeeps(cfg, clock, trace, n);
    if i < j {
      ScalingIsSpaced(cfg, clock, trace, n, i, j - 1);
      var gaps := (j - 1 - i) as real;
      assert (j - i) as real * cfg.cooldownMs == gaps * cfg.cooldownMs + cfg.cooldownMs;
    }
  }

  /**
   * A tick moves the live pool by at most one beyond the floor, in the direction the CPU asks for,
   * stays within [min, max], and moves it at all exactly when it records an action.
   */
  lemma TickMovesByOne(cfg: Config, clock: Clock, trace: seq<State>, i: nat, util: real)
    requires Run(cfg, clock, trace) && i < |trace| && !trace[i].shuttingDown && !trace[i].paused
    ensures var s, r := trace[i], Apply(cfg, clock, trace[i], Tick(util));
            var floor := if Live(s.children) < cfg.min then cfg.min else Live(s.children);
            && cfg.min <= Live(r.children) <= cfg.max
            && (Live(r.children) == floor <==> r.scaledAt == s.scaledAt)
            && (Live(r.children) > floor ==> Live(r.children) == floor + 1 && util >= cfg.cpuHigh)
            && (Live(r.children) < floor ==> Live(r.children) == floor - 1 && util <= cfg.cpuLow)
  {
    hide Core;
    RunKeeps(cfg, clock, trace, i);
    var s := trace[i];
    EnsureFloorKeeps(cfg, clock, s);
    var f := Read(EnsureFloor(cfg, clock, s));
    ReadKeeps(cfg, clock, EnsureFloor(cfg, clock, s));
    if Cooled(cfg, f.lastScaleAt, Now(clock, f)) {
      if util >= cfg.cpuHigh && Live(f.children) < cfg.max {
        ScaleUpKeeps(cfg, clock, f);
      } else if util <= cfg.cpuLow && Live(f.children) > cfg.min {
        ScaleDownKeeps(cfg, clock, f);
      }
    }
  }
}
