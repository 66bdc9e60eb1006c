/** Every step of the supervisor preserves the invariant. */
module SupervisorSteps {
  import opened Wrappers
  import opened SupervisorConfig
  import opened SupervisorModel
  import opened SupervisorInvariants

  // ----- signals -----

  lemma WarnedLater(sent: seq<Sent>, id: nat, latest: real, later: real)
    requires Warned(sent, id, latest) && latest <= later
    ensures Warned(sent, id, later)
  {
  }

  /** Appending signals is safe when each new SIGKILL goes to a child that was already warned. */
  lemma SendKeeps(cfg: Config, clock: Clock, s: State, more: seq<Sent>)
    requires Core(cfg, clock, s)
    requires forall j :: 0 <= j < |more| && more[j].signal == SIGKILL ==>
               Warned(s.sent, more[j].id, more[j].at - cfg.drainMs)
    ensures Core(cfg, clock, s.(sent := s.sent + more))
  {
    KillsStayWarned(cfg, s.sent, more);
    SendKeepsTimers(cfg, s, more);
  }

  lemma KillsStayWarned(cfg: Config, before: seq<Sent>, more: seq<Sent>)
    requires KillsWarned(cfg, before)
    requires forall j :: 0 <= j < |more| && more[j].signal == SIGKILL ==>
               Warned(before, more[j].id, more[j].at - cfg.drainMs)
    ensures KillsWarned(cfg, before + more)
  {
    var sent := before + more;
    forall j | 0 <= j < |sent| && sent[j].signal == SIGKILL
      ensures Warned(sent[..j], sent[j].id, sent[j].at - cfg.drainMs)
    {
      if j < |before| {
        assert sent[..j] == before[..j];
      } else {
        assert sent[..j] == before + more[..j - |before|];
        WarnedMore(before, more[..j - |before|], sent[j].id, sent[j].at - cfg.drainMs);
      }
    }
  }

  lemma SendKeepsTimers(cfg: Config, s: State, more: seq<Sent>)
    requires KillTimers(cfg, s.children, s.timers, s.nextTimer, s.sent)
    requires Deadlines(cfg, s.children, s.timers, s.sent, s.shuttingDown)
    ensures KillTimers(cfg, s.children, s.timers, s.nextTimer, s.sent + more)
    ensures Deadlines(cfg, s.children, s.timers, s.sent + more, s.shuttingDown)
  {
    forall id | id in s.children && s.children[id].draining
      ensures KillTimer(cfg, s.timers, s.nextTimer, s.sent + more, id, s.children[id].killTimer.value)
    {
      var t := s.children[id].killTimer.value;
      assert KillTimer(cfg, s.timers, s.nextTimer, s.sent, id, t);
      if t in s.timers {
        WarnedMore(s.sent, more, id, s.timers[t].due - cfg.drainMs);
      } else {
        KilledMore(s.sent, more, id);
      }
    }
    forall t, id | t in s.timers && s.timers[t].action.ShutdownDeadline? && id in s.children
      ensures Warned(s.sent + more, id, s.timers[t].due - cfg.drainMs)
    {
      WarnedMore(s.sent, more, id, s.timers[t].due - cfg.drainMs);
    }
  }

  /** Signalling everyone reaches every tracked child, once, and nobody else. */
  lemma {:induction false} SignalAllReaches(children: map<nat, Child>, bound: nat, signal: Signal, at: real)
    ensures forall e :: e in SignalAll(children, bound, signal, at)
              <==> e.id in children && e.id < bound && e == Sent(e.id, signal, at)
  {
    if bound > 0 {
      SignalAllReaches(children, bound - 1, signal, at);
    }
  }

  // ----- drains -----

  lemma StartKillTimer(cfg: Config, s: State, id: nat, children: map<nat, Child>, due: real)
    requires KillTimers(cfg, s.children, s.timers, s.nextTimer, s.sent)
    requires Deadlines(cfg, s.children, s.timers, s.sent, s.shuttingDown)
    requires id in LiveIds(s.children) && Warned(s.sent, id, due - cfg.drainMs)
    requires children == s.children[id := Child(s.children[id].startedAt, true, Some(s.nextTimer))]
    ensures var timers := s.timers[s.nextTimer := Timer(due, DrainKill(id))];
            && KillTimers(cfg, children, timers, s.nextTimer + 1, s.sent)
            && Deadlines(cfg, children, timers, s.sent, s.shuttingDown)
  {
  }

  lemma StartDraining(cfg: Config, clock: Clock, s: State, id: nat, children: map<nat, Child>, timer: Timer)
    requires Core(cfg, clock, s) && id in LiveIds(s.children)
    requires timer.action == DrainKill(id) && Warned(s.sent, id, timer.due - cfg.drainMs)
    requires children == s.children[id := Child(s.children[id].startedAt, true, Some(s.nextTimer))]
    ensures Core(cfg, clock, s.(children := children, timers := s.timers[s.nextTimer := timer],
                                nextTimer := s.nextTimer + 1))
  {
    assert children.Keys == s.children.Keys;
    assert Tracked(Now(clock, s), children, s.running, s.nextId);
    StartKillTimer(cfg, s, id, children, timer.due);
    PendingAfterSetTimer(s, timer, {Unpause});
    PendingAfterSetTimer(s, timer, {ShutdownDeadline});
  }

  lemma DrainKeeps(cfg: Config, clock: Clock, s: State, id: nat)
    requires Core(cfg, clock, s) && id in LiveIds(s.children)
    ensures Core(cfg, clock, Drain(cfg, clock, s, id))
    ensures Live(Drain(cfg, clock, s, id).children) == Live(s.children) - 1
  {
    hide Core;
    var now := Now(clock, s);
    var r := s.(sent := s.sent + [Sent(id, SIGTERM, now)]);
    SendKeeps(cfg, clock, s, [Sent(id, SIGTERM, now)]);
    assert r.sent[|s.sent|] == Sent(id, SIGTERM, now);
    var c := Child(s.children[id].startedAt, true, Some(s.nextTimer));
    var timer := Timer(now + cfg.drainMs, DrainKill(id));
    StartDraining(cfg, clock, r, id, s.children[id := c], timer);
    assert Drain(cfg, clock, s, id) == r.(children := s.children[id := c],
      timers := s.timers[s.nextTimer := timer], nextTimer := s.nextTimer + 1);
    LiveAfterDraining(s.children, id, c);
  }

  /** A drain picks the newest live child, which is the live child with the highest id. */
  lemma NewestIsHighestId(clock: Clock, s: State, id: nat)
    requires Tracked(Now(clock, s), s.children, s.running, s.nextId)
    ensures IsNewest(s.children, id)
       <==> id in LiveIds(s.children) && forall other :: other in LiveIds(s.children) ==> other <= id
  {
  }

  lemma {:induction false} HighestExists(ids: set<nat>) returns (top: nat)
    requires ids != {}
    ensures top in ids && forall id :: id in ids ==> id <= top
    decreases ids
  {
    top :| top in ids;
    if ids - {top} != {} {
      var other := HighestExists(ids - {top});
      assert forall id :: id in ids ==> id == top || id in ids - {top};
      if other > top {
        top := other;
      }
    } else {
      assert ids == {top};
    }
  }

  /** With a live child present, a drain always happens, and it takes away one live child. */
  lemma DrainOneKeeps(cfg: Config, clock: Clock, s: State)
    requires Core(cfg, clock, s) && Live(s.children) > 0
    ensures exists id :: IsNewest(s.children, id) && id in s.children && DrainOne(cfg, clock, s) == Drain(cfg, clock, s, id)
    ensures Core(cfg, clock, DrainOne(cfg, clock, s))
    ensures Live(DrainOne(cfg, clock, s).children) == Live(s.children) - 1
  {
    var top := HighestExists(LiveIds(s.children));
    NewestIsHighestId(clock, s, top);
    assert IsNewest(s.children, top);
    var id: nat :| IsNewest(s.children, id) && id in s.children && DrainOne(cfg, clock, s) == Drain(cfg, clock, s, id);
    NewestIsHighestId(clock, s, id);
    DrainKeeps(cfg, clock, s, id);
  }

  // ----- ticks -----

  lemma MarkScaledKeeps(cfg: Config, clock: Clock, s: State)
    requires Monotone(clock) && Core(cfg, clock, s)
    requires Cooled(cfg, s.lastScaleAt, Now(clock, s))
    ensures Core(cfg, clock, MarkScaled(clock, s))
  {
  }

  lemma ScaleUpKeeps(cfg: Config, clock: Clock, s: State)
    requires cfg.Valid() && Monotone(clock) && Inv(cfg, clock, s) && !s.shuttingDown && !s.paused
    requires Live(s.children) < cfg.max && cfg.min <= Live(s.children)
    requires Cooled(cfg, s.lastScaleAt, Now(clock, s))
    ensures Inv(cfg, clock, MarkScaled(clock, Spawn(clock, s)))
    ensures Live(MarkScaled(clock, Spawn(clock, s)).children) == Live(s.children) + 1
  {
    hide Core;
    SpawnKeeps(cfg, clock, s);
    assert clock(s.readings) <= clock(s.readings + 1);
    MarkScaledKeeps(cfg, clock, Spawn(clock, s));
  }

  lemma ScaleDownKeeps(cfg: Config, clock: Clock, s: State)
    requires cfg.Valid() && Monotone(clock) && Inv(cfg, clock, s) && !s.shuttingDown && !s.paused
    requires cfg.min < Live(s.children)
    requires Cooled(cfg, s.lastScaleAt, Now(clock, s))
    ensures Inv(cfg, clock, MarkScaled(clock, DrainOne(cfg, clock, s)))
    ensures Live(MarkScaled(clock, DrainOne(cfg, clock, s)).children) == Live(s.children) - 1
  {
    hide Core;
    DrainOneKeeps(cfg, clock, s);
    MarkScaledKeeps(cfg, clock, DrainOne(cfg, clock, s));
  }

  lemma TickKeeps(cfg: Config, clock: Clock, s: State, util: real)
    requires cfg.Valid() && Monotone(clock) && Inv(cfg, clock, s)
    ensures Inv(cfg, clock, AfterTick(cfg, clock, s, util))
  {
    hide Core;
    if !s.shuttingDown && !s.paused {
      EnsureFloorKeeps(cfg, clock, s);
      var f := EnsureFloor(cfg, clock, s);
      ReadKeeps(cfg, clock, f);
      var r := Read(f);
      assert Inv(cfg, clock, r);
      if Cooled(cfg, r.lastScaleAt, Now(clock, r)) {
        if util >= cfg.cpuHigh && Live(r.children) < cfg.max {
          ScaleUpKeeps(cfg, clock, r);
        } else if util <= cfg.cpuLow && Live(r.children) > cfg.min {
          ScaleDownKeeps(cfg, clock, r);
        }
      }
    }
  }

  // ----- exits -----

  lemma ForgetTimers(cfg: Config, s: State, id: nat, timers: map<nat, Timer>)
    requires KillTimers(cfg, s.children, s.timers, s.nextTimer, s.sent) && id in s.children
    requires timers == ClearTimer(s.timers, s.children[id].killTimer)
    ensures KillTimers(cfg, s.children - {id}, timers, s.nextTimer, s.sent)
    ensures forall t :: t in timers ==> t in s.timers && timers[t] == s.timers[t]
    ensures forall t :: t in s.timers && !s.timers[t].action.DrainKill? ==> t in timers && timers[t] == s.timers[t]
  {
  }

  lemma FewerDeadlines(cfg: Config, s: State, children: map<nat, Child>, timers: map<nat, Timer>)
    requires Deadlines(cfg, s.children, s.timers, s.sent, s.shuttingDown)
    requires children.Keys <= s.children.Keys
    requires forall t :: t in timers ==> t in s.timers && timers[t] == s.timers[t]
    ensures Deadlines(cfg, children, timers, s.sent, s.shuttingDown)
  {
  }

  /** A dead process leaves the tables, and takes its kill timer with it. */
  lemma ForgetKeeps(cfg: Config, clock: Clock, s: State, f: State, id: nat)
    requires Core(cfg, clock, s) && id in s.children && f == Forget(s.(running := s.running - {id}), id)
    ensures !s.shuttingDown || f.children != map[] ==> Core(cfg, clock, f)
    ensures s.shuttingDown && f.children == map[] ==> Core(cfg, clock, FinishShutdown(f))
    ensures Live(f.children) == Live(s.children) - (if s.children[id].draining then 0 else 1)
    ensures Pending(s.timers, {RestoreFloor, Unpause}) ==> Pending(f.timers, {RestoreFloor, Unpause})
  {
    ForgetTimers(cfg, s, id, f.timers);
    FewerDeadlines(cfg, s, f.children, f.timers);
    LiveAfterLosing(s.children, id);
    PendingSurvives(s.timers, f.timers, {Unpause});
    PendingSurvives(s.timers, f.timers, {ShutdownDeadline});
    PendingSurvives(s.timers, f.timers, {RestoreFloor, Unpause});
  }

  lemma RecordCrashKeepsCore(cfg: Config, clock: Clock, s: State)
    requires Monotone(clock) && Core(cfg, clock, s)
    ensures Core(cfg, clock, RecordCrash(cfg, clock, s))
  {
    RecordCrashKeeps(cfg, clock, s);
    assert clock(s.readings) <= clock(s.readings + 1);
  }

  /** A fast crash arms a timer, and pauses respawning exactly when the window is full. */
  lemma AfterFastCrashKeeps(cfg: Config, clock: Clock, s: State)
    requires cfg.Valid() && Monotone(clock) && Core(cfg, clock, s)
    requires Live(s.children) <= cfg.max && |s.crashTimes| + Live(s.children) < 4 * cfg.max - 1
    ensures Inv(cfg, clock, AfterFastCrash(cfg, clock, s))
  {
    RecordCrashKeepsCore(cfg, clock, s);
    RecordCrashKeeps(cfg, clock, s);
    var r := RecordCrash(cfg, clock, s);
    if |r.crashTimes| >= cfg.max * 3 {
      SetTimerKeeps(cfg, clock, r, true, Unpause, cfg.crashPauseMs);
    } else {
      SetTimerKeeps(cfg, clock, r, r.paused, RestoreFloor, cfg.crashBackoffMs);
    }
  }

  lemma RunningIsTracked(cfg: Config, clock: Clock, s: State, id: nat)
    requires Core(cfg, clock, s) && id in s.running
    ensures id in s.children && s.children[id].startedAt == s.running[id]
  {
  }

  lemma ExitKeeps(cfg: Config, clock: Clock, s: State, id: nat)
    requires cfg.Valid() && Monotone(clock) && Inv(cfg, clock, s) && id in s.running
    ensures Inv(cfg, clock, AfterExit(cfg, clock, s.(running := s.running - {id}), id, s.running[id]))
  {
    hide Core, EnsureFloor, AfterFastCrash, Pending;
    RunningIsTracked(cfg, clock, s, id);
    var f := Forget(s.(running := s.running - {id}), id);
    ForgetKeeps(cfg, clock, s, f, id);
    if !s.shuttingDown && !s.children[id].draining {
      ReadKeeps(cfg, clock, f);
      var r := Read(f);
      if Now(clock, r) - s.running[id] < cfg.crashFastMs {
        AfterFastCrashKeeps(cfg, clock, r);
      } else {
        EnsureFloorKeeps(cfg, clock, r);
      }
    }
  }

  // ----- shutdown -----

  lemma WarnEveryone(cfg: Config, clock: Clock, s: State)
    requires Core(cfg, clock, s)
    ensures Core(cfg, clock, SendAll(clock, s, SIGTERM))
    ensures forall id :: id in s.children ==> Warned(SendAll(clock, s, SIGTERM).sent, id, Now(clock, s))
  {
    var more := SignalAll(s.children, s.nextId, SIGTERM, Now(clock, s));
    SignalAllReaches(s.children, s.nextId, SIGTERM, Now(clock, s));
    forall j | 0 <= j < |more| ensures more[j].signal == SIGTERM {
      assert more[j] in more;
    }
    SendKeeps(cfg, clock, s, more);
    forall id | id in s.children ensures Warned(s.sent + more, id, Now(clock, s)) {
      assert Sent(id, SIGTERM, Now(clock, s)) in more;
      var j :| 0 <= j < |more| && more[j] == Sent(id, SIGTERM, Now(clock, s));
      assert (s.sent + more)[|s.sent| + j] == more[j];
    }
  }

  lemma ArmDeadline(cfg: Config, clock: Clock, k: State, due: real)
    requires Core(cfg, clock, k) && !k.shuttingDown && k.children != map[]
    requires forall id :: id in k.children ==> Warned(k.sent, id, due - cfg.drainMs)
    ensures Core(cfg, clock, k.(shuttingDown := true, onCompleteSet := true,
                                timers := k.timers[k.nextTimer := Timer(due, ShutdownDeadline)],
                                nextTimer := k.nextTimer + 1))
  {
    NewTimerKeepsKillTimers(cfg, k, Timer(due, ShutdownDeadline));
    PendingAfterSetTimer(k, Timer(due, ShutdownDeadline), {Unpause});
    PendingAfterSetTimer(k, Timer(due, ShutdownDeadline), {ShutdownDeadline});
  }

  lemma ShutdownKeeps(cfg: Config, clock: Clock, s: State)
    requires cfg.Valid() && Inv(cfg, clock, s)
    ensures Inv(cfg, clock, AfterShutdown(cfg, clock, s))
  {
    hide Core;
    if !s.shuttingDown {
      WarnEveryone(cfg, clock, s);
      var k := SendAll(clock, s, SIGTERM);
      if k.children != map[] {
        var due := Now(clock, s) + cfg.drainMs;
        ArmDeadline(cfg, clock, k, due);
        assert AfterShutdown(cfg, clock, s) == k.(shuttingDown := true, onCompleteSet := true,
          timers := k.timers[k.nextTimer := Timer(due, ShutdownDeadline)], nextTimer := k.nextTimer + 1);
      } else {
        NobodyToWaitFor(cfg, clock, k);
      }
    }
  }

  lemma NobodyToWaitFor(cfg: Config, clock: Clock, k: State)
    requires Core(cfg, clock, k) && !k.shuttingDown && k.children == map[]
    ensures Core(cfg, clock, FinishShutdown(k.(shuttingDown := true, onCompleteSet := true)))
  {
  }

  // ----- timers -----

  lemma PendingAfterFiring(timers: map<nat, Timer>, t: nat, actions: set<Action>)
    requires t in timers
    ensures timers[t].action !in actions && Pending(timers, actions) ==> Pending(timers - {t}, actions)
  {
    if timers[t].action !in actions {
      PendingSurvives(timers, timers - {t}, actions);
    }
  }

  /** A fired timer that nothing waits for can be dropped. */
  lemma FiredKeeps(cfg: Config, clock: Clock, s: State, t: nat)
    requires Core(cfg, clock, s) && t in s.timers
    requires s.timers[t].action.DrainKill? ==> Killed(s.sent, s.timers[t].action.id)
    requires s.timers[t].action.Unpause? ==> !s.paused
    requires s.timers[t].action.ShutdownDeadline? ==> !s.onCompleteSet
    ensures Core(cfg, clock, s.(timers := s.timers - {t}))
  {
    FewerDeadlines(cfg, s, s.children, s.timers - {t});
    PendingAfterFiring(s.timers, t, {Unpause});
    PendingAfterFiring(s.timers, t, {ShutdownDeadline});
  }

  lemma FireFloorKeeps(cfg: Config, clock: Clock, s: State, t: nat)
    requires cfg.Valid() && Monotone(clock) && Inv(cfg, clock, s)
    requires t in s.timers && s.timers[t].action in {RestoreFloor, Unpause}
    ensures Inv(cfg, clock, RunAction(cfg, clock, s.(timers := s.timers - {t}), s.timers[t].action))
  {
    if s.timers[t].action.RestoreFloor? {
      FiredKeeps(cfg, clock, s, t);
      EnsureFloorKeeps(cfg, clock, s.(timers := s.timers - {t}));
    } else {
      var q := s.(paused := false, crashTimes := [], fastCrashes := []);
      FiredKeeps(cfg, clock, q, t);
      EnsureFloorKeeps(cfg, clock, q.(timers := q.timers - {t}));
    }
  }

  lemma FireDrainKillKeeps(cfg: Config, clock: Clock, s: State, t: nat)
    requires Inv(cfg, clock, s)
    requires t in s.timers && s.timers[t].action.DrainKill? && s.timers[t].due <= Now(clock, s)
    ensures s.timers[t].action.id in s.children
    ensures Inv(cfg, clock, RunAction(cfg, clock, s.(timers := s.timers - {t}), s.timers[t].action))
  {
    var id := s.timers[t].action.id;
    assert KillTimer(cfg, s.timers, s.nextTimer, s.sent, id, t);
    WarnedLater(s.sent, id, s.timers[t].due - cfg.drainMs, Now(clock, s) - cfg.drainMs);
    var kill := Sent(id, SIGKILL, Now(clock, s));
    SendKeeps(cfg, clock, s, [kill]);
    var k := s.(sent := s.sent + [kill]);
    assert k.sent[|s.sent|] == kill;
    FiredKeeps(cfg, clock, k, t);
    PendingAfterFiring(s.timers, t, {RestoreFloor, Unpause});
  }

  lemma KillEveryone(cfg: Config, clock: Clock, s: State)
    requires Core(cfg, clock, s)
    requires forall id :: id in s.children ==> Warned(s.sent, id, Now(clock, s) - cfg.drainMs)
    ensures Core(cfg, clock, SendAll(clock, s, SIGKILL))
  {
    var more := SignalAll(s.children, s.nextId, SIGKILL, Now(clock, s));
    SignalAllReaches(s.children, s.nextId, SIGKILL, Now(clock, s));
    forall j | 0 <= j < |more| ensures Warned(s.sent, more[j].id, more[j].at - cfg.drainMs) {
      assert more[j] in more;
    }
    SendKeeps(cfg, clock, s, more);
  }

  lemma FireDeadlineKeeps(cfg: Config, clock: Clock, s: State, t: nat)
    requires Inv(cfg, clock, s)
    requires t in s.timers && s.timers[t].action.ShutdownDeadline? && s.timers[t].due <= Now(clock, s)
    ensures Inv(cfg, clock, RunAction(cfg, clock, s.(timers := s.timers - {t}), s.timers[t].action))
  {
    forall id | id in s.children ensures Warned(s.sent, id, Now(clock, s) - cfg.drainMs) {
      WarnedLater(s.sent, id, s.timers[t].due - cfg.drainMs, Now(clock, s) - cfg.drainMs);
    }
    KillEveryone(cfg, clock, s);
    var k := FinishShutdown(SendAll(clock, s, SIGKILL));
    FiredKeeps(cfg, clock, k, t);
  }

  // ----- every step -----

  lemma StartedHolds(cfg: Config, clock: Clock)
    requires cfg.Valid() && Monotone(clock)
    ensures Inv(cfg, clock, Started(cfg, clock))
    ensures Live(Started(cfg, clock).children) == cfg.min
  {
    assert LiveIds(EMPTY.children) == {};
    SpawnManyKeeps(cfg, clock, EMPTY, cfg.min);
  }

  lemma StepKeeps(cfg: Config, clock: Clock, s: State, step: Step)
    requires cfg.Valid() && Monotone(clock) && Inv(cfg, clock, s) && Enabled(clock, s, step)
    ensures Inv(cfg, clock, Apply(cfg, clock, s, step))
  {
    match step
    case Wait => ReadKeeps(cfg, clock, s);
    case Tick(util) => TickKeeps(cfg, clock, s, util);
    case Floor => EnsureFloorKeeps(cfg, clock, s);
    case Exit(id) => ExitKeeps(cfg, clock, s, id);
    case Shutdown => ShutdownKeeps(cfg, clock, s);
    case Fire(t) =>
      match s.timers[t].action
      case DrainKill(_) => FireDrainKillKeeps(cfg, clock, s, t);
      case ShutdownDeadline => FireDeadlineKeeps(cfg, clock, s, t);
      case _ => FireFloorKeeps(cfg, clock, s, t);
  }
}
