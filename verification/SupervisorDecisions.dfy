/** What each step of the supervisor does, told from the pool, the clock and the settings alone. */
module SupervisorDecisions {
  import opened Wrappers
  import opened SupervisorConfig
  import opened SupervisorModel
  import opened SupervisorInvariants
  import opened SupervisorSteps
  import opened SupervisorRuns

  // ----- spawning -----

  /** `n` new live children, under the next ids; the old ones are as they were. */
  ghost predicate Grown(s: State, r: State, n: nat) {
    && r.nextId == s.nextId + n
    && (forall id: nat :: id in r.children <==> id in s.children || s.nextId <= id < s.nextId + n)
    && (forall id :: id in s.children ==> r.children[id] == s.children[id])
    && (forall id :: id in r.children && id !in s.children ==> !r.children[id].draining && r.children[id].killTimer.None?)
  }

  /** They were started one after the other, each at its own reading of the clock, and nothing else changed. */
  ghost predicate Spawned(clock: Clock, s: State, r: State, n: nat) {
    && Grown(s, r, n) && r.readings == s.readings + n
    && (forall id: nat :: s.nextId <= id < s.nextId + n ==>
          id in r.children && r.children[id].startedAt == clock(s.readings + 1 + (id - s.nextId)))
    && r == s.(children := r.children, running := r.running, nextId := r.nextId, readings := r.readings)
  }

  ghost predicate Numbered(s: State) {
    forall id :: id in s.children ==> id < s.nextId
  }

  lemma SpawnOnce(clock: Clock, s: State)
    requires !s.shuttingDown && !s.paused && Numbered(s)
    ensures Spawned(clock, s, Spawn(clock, s), 1) && Numbered(Spawn(clock, s))
  {
  }

  lemma GrowOn(s: State, t: State, r: State, n: nat, m: nat)
    requires Grown(s, t, n) && Grown(t, r, m)
    ensures Grown(s, r, n + m)
  {
  }

  lemma SpawnOn(clock: Clock, s: State, t: State, r: State, m: nat)
    requires Numbered(s) && Spawned(clock, s, t, 1) && Spawned(clock, t, r, m)
    ensures Spawned(clock, s, r, m + 1)
  {
    GrowOn(s, t, r, 1, m);
    hide Grown;
    assert Grown(s, r, m + 1);
    assert s.nextId in t.children && t.children[s.nextId].startedAt == clock(s.readings + 1 + 0);
    forall id: nat | s.nextId <= id < s.nextId + (m + 1)
      ensures id in r.children && r.children[id].startedAt == clock(s.readings + 1 + (id - s.nextId))
    {
      OldStay(t, r, m, s.nextId);
    }
  }

  lemma OldStay(t: State, r: State, m: nat, id: nat)
    requires Grown(t, r, m) && id in t.children
    ensures id in r.children && r.children[id] == t.children[id]
  {
  }

  lemma NoneSpawned(clock: Clock, s: State)
    ensures Spawned(clock, s, s, 0)
  {
  }

  lemma SpawnedKeepsScaling(clock: Clock, s: State, r: State, n: nat)
    requires Spawned(clock, s, r, n)
    ensures r.lastScaleAt == s.lastScaleAt && r.scaledAt == s.scaledAt && r.timers == s.timers && r.sent == s.sent
    ensures r.readings == s.readings + n && r.nextTimer == s.nextTimer
    ensures r.paused == s.paused && r.shuttingDown == s.shuttingDown
  {
  }

  lemma {:induction false} SpawnManySpawns(clock: Clock, s: State, n: nat)
    requires !s.shuttingDown && !s.paused && Numbered(s)
    ensures Spawned(clock, s, SpawnMany(clock, s, n), n)
    decreases n
  {
    hide Spawned, Spawn, Numbered;
    if n == 0 {
      NoneSpawned(clock, s);
    } else {
      SpawnOnce(clock, s);
      SpawnedKeepsScaling(clock, s, Spawn(clock, s), 1);
      SpawnManySpawns(clock, Spawn(clock, s), n - 1);
      SpawnOn(clock, s, Spawn(clock, s), SpawnMany(clock, Spawn(clock, s), n - 1), n - 1);
    }
  }

  lemma SpawnedGrows(clock: Clock, s: State, r: State, n: nat)
    requires Spawned(clock, s, r, n)
    ensures Grown(s, r, n)
  {
  }

  /** How many children the live pool is short of its floor. */
  function Short(cfg: Config, live: int): nat {
    if live < cfg.min then cfg.min - live else 0
  }

  /** What the floor calls for: nothing while respawning is paused or shutdown has begun. */
  function FloorCalls(cfg: Config, s: State): nat {
    if s.shuttingDown || s.paused then 0 else Short(cfg, Live(s.children))
  }

  lemma InvIsNumbered(cfg: Config, clock: Clock, s: State)
    requires Core(cfg, clock, s)
    ensures Numbered(s)
  {
  }

  lemma FloorSpawns(cfg: Config, clock: Clock, s: State)
    requires cfg.Valid() && Monotone(clock) && Core(cfg, clock, s)
    ensures Spawned(clock, s, EnsureFloor(cfg, clock, s), FloorCalls(cfg, s))
    ensures Live(EnsureFloor(cfg, clock, s).children) == Live(s.children) + FloorCalls(cfg, s)
  {
    hide Core, Live, Spawned, SpawnMany;
    EnsureFloorKeeps(cfg, clock, s);
    InvIsNumbered(cfg, clock, s);
    if !s.shuttingDown && !s.paused {
      SpawnManySpawns(clock, s, FloorCalls(cfg, s));
    } else {
      NoneSpawned(clock, s);
    }
  }

  lemma NoneMissing(cfg: Config, clock: Clock, s: State)
    ensures Live(s.children) >= cfg.min ==> EnsureFloor(cfg, clock, s) == s
  {
  }

  // ----- ticks -----

  /** The live child with the highest id was told to drain: warned now, and killed `drainMs` later unless it is gone. */
  ghost predicate DrainsNewest(cfg: Config, s: State, r: State, id: nat, now: real) {
    && id in s.children && !s.children[id].draining
    && (forall other :: other in s.children && !s.children[other].draining ==> other <= id)
    && r.children == s.children[id := Child(s.children[id].startedAt, true, Some(s.nextTimer))]
    && r.sent == s.sent + [Sent(id, SIGTERM, now)]
    && r.timers == s.timers[s.nextTimer := Timer(now + cfg.drainMs, DrainKill(id))]
    && r.nextId == s.nextId
  }

  /** No autoscale action was recorded within the cooldown that ends now. */
  ghost predicate CooledDown(cfg: Config, scaledAt: seq<real>, now: real) {
    scaledAt == [] || now - scaledAt[|scaledAt| - 1] >= cfg.cooldownMs
  }

  /** What a tick decides, from the CPU sample, the live pool once the floor is restored, and the time of the decision. */
  ghost predicate ScalesUp(cfg: Config, s: State, util: real, pool: nat, now: real) {
    util >= cfg.cpuHigh && pool < cfg.max && CooledDown(cfg, s.scaledAt, now)
  }

  ghost predicate ScalesDown(cfg: Config, s: State, util: real, pool: nat, now: real) {
    util <= cfg.cpuLow && pool > cfg.min && CooledDown(cfg, s.scaledAt, now)
  }

  lemma CooledIsCooledDown(cfg: Config, clock: Clock, s: State, now: real)
    requires Core(cfg, clock, s)
    ensures Cooled(cfg, s.lastScaleAt, now) <==> CooledDown(cfg, s.scaledAt, now)
  {
  }

  /** A tick that is free to act, with the floor restored and the time of its decision read off the clock. */
  lemma TickAfterFloor(cfg: Config, clock: Clock, s: State, util: real)
    requires cfg.Valid() && Monotone(clock) && Inv(cfg, clock, s) && !s.shuttingDown && !s.paused
    ensures var f := Read(EnsureFloor(cfg, clock, s));
            var pool, now := Live(s.children) + Short(cfg, Live(s.children)), clock(f.readings);
            && Inv(cfg, clock, f) && Live(f.children) == pool && Now(clock, f) == now
            && (Cooled(cfg, f.lastScaleAt, now) <==> CooledDown(cfg, s.scaledAt, now))
            && Spawned(clock, s, EnsureFloor(cfg, clock, s), Short(cfg, Live(s.children)))
            && AfterTick(cfg, clock, s, util) ==
               if ScalesUp(cfg, s, util, pool, now) then MarkScaled(clock, Spawn(clock, f))
               else if ScalesDown(cfg, s, util, pool, now) then MarkScaled(clock, DrainOne(cfg, clock, f))
               else f
  {
    hide Core, Spawned, Live, Spawn, DrainOne, Bounded, FloorHeld;
    FloorSpawns(cfg, clock, s);
    EnsureFloorKeeps(cfg, clock, s);
    var e := EnsureFloor(cfg, clock, s);
    ReadKeeps(cfg, clock, e);
    SpawnedKeepsScaling(clock, s, e, FloorCalls(cfg, s));
    ReadKeepsRest(cfg, clock, e);
    CooledIsCooledDown(cfg, clock, Read(e), clock(Read(e).readings));
    hide EnsureFloor, MarkScaled;
  }

  lemma ReadKeepsRest(cfg: Config, clock: Clock, s: State)
    requires FloorHeld(cfg, s) && Bounded(cfg, s)
    ensures FloorHeld(cfg, Read(s)) && Bounded(cfg, Read(s))
  {
  }

  lemma ScaleUpGrows(cfg: Config, clock: Clock, s: State, e: State, n: nat)
    requires cfg.Valid() && Monotone(clock) && Inv(cfg, clock, Read(e)) && !e.shuttingDown && !e.paused
    requires Spawned(clock, s, e, n) && Live(e.children) < cfg.max && cfg.min <= Live(e.children)
    requires Cooled(cfg, e.lastScaleAt, clock(e.readings + 1))
    ensures var r := MarkScaled(clock, Spawn(clock, Read(e)));
            && Grown(s, r, n + 1) && Live(r.children) == Live(e.children) + 1
            && r.scaledAt == s.scaledAt + [clock(r.readings)] && r.timers == s.timers && r.sent == s.sent
  {
    hide Core, FloorHeld, Bounded, Live, Spawned, Grown, Spawn;
    InvIsNumbered(cfg, clock, Read(e));
    SpawnedKeepsScaling(clock, s, e, n);
    ScaleUpKeeps(cfg, clock, Read(e));
    hide Inv;
    SpawnOnce(clock, Read(e));
    SpawnedKeepsScaling(clock, Read(e), Spawn(clock, Read(e)), 1);
    SpawnedGrows(clock, s, e, n);
    SpawnedGrows(clock, Read(e), Spawn(clock, Read(e)), 1);
    GrownIgnoresRead(s, e, n);
    GrowOn(s, Read(e), Spawn(clock, Read(e)), n, 1);
    GrownIgnoresMark(clock, s, Spawn(clock, Read(e)), n + 1);
  }

  lemma GrownIgnoresRead(s: State, r: State, n: nat)
    requires Grown(s, r, n)
    ensures Grown(s, Read(r), n)
  {
  }

  lemma GrownIgnoresMark(clock: Clock, s: State, r: State, n: nat)
    requires Grown(s, r, n)
    ensures Grown(s, MarkScaled(clock, r), n)
  {
  }

  lemma ScaleDownDrains(cfg: Config, clock: Clock, s: State) returns (id: nat)
    requires cfg.Valid() && Monotone(clock) && Inv(cfg, clock, Read(s)) && !s.shuttingDown && !s.paused
    requires cfg.min < Live(s.children) && Cooled(cfg, s.lastScaleAt, clock(s.readings + 1))
    ensures var r := MarkScaled(clock, DrainOne(cfg, clock, Read(s)));
            && DrainsNewest(cfg, s, r, id, clock(s.readings + 1)) && Live(r.children) == Live(s.children) - 1
            && r.scaledAt == s.scaledAt + [clock(r.readings)]
  {
    hide Core, Live, DrainOne, Drain, IsNewest, FloorHeld;
    InvIsTracked(cfg, clock, Read(s));
    DrainOneKeeps(cfg, clock, Read(s));
    ScaleDownKeeps(cfg, clock, Read(s));
    id :| IsNewest(s.children, id) && id in s.children && DrainOne(cfg, clock, Read(s)) == Drain(cfg, clock, Read(s), id);
    hide Inv;
    DrainIsOfNewest(cfg, clock, s, id);
  }

  lemma DrainIsOfNewest(cfg: Config, clock: Clock, s: State, id: nat)
    requires Tracked(Now(clock, Read(s)), s.children, s.running, s.nextId) && IsNewest(s.children, id)
    ensures DrainsNewest(cfg, s, MarkScaled(clock, Drain(cfg, clock, Read(s), id)), id, clock(s.readings + 1))
    ensures var r := MarkScaled(clock, Drain(cfg, clock, Read(s), id)); r.scaledAt == s.scaledAt + [clock(r.readings)]
  {
    NewestIsHighestId(clock, Read(s), id);
  }

  lemma InvIsTracked(cfg: Config, clock: Clock, s: State)
    requires Core(cfg, clock, s)
    ensures Tracked(Now(clock, s), s.children, s.running, s.nextId)
  {
  }

  /**
   * In every run, a tick first restores the floor and then scales up if and only if the CPU sample is high
   * enough, the pool below `max` and the cooldown over, and down if and only if the sample is low enough, the
   * pool above `min` and the cooldown over; it records exactly these actions.
   */
  lemma TickScalesExactly(cfg: Config, clock: Clock, trace: seq<State>, i: nat, util: real)
    requires Run(cfg, clock, trace) && i < |trace|
    ensures var s, r := trace[i], Apply(cfg, clock, trace[i], Tick(util));
            if s.shuttingDown || s.paused then r == s
            else
              var missing := Short(cfg, Live(s.children));
              var pool, now := Live(s.children) + missing, clock(s.readings + missing + 1);
              var up, down := ScalesUp(cfg, s, util, pool, now), ScalesDown(cfg, s, util, pool, now);
              && !(up && down)
              && Live(r.children) == (if up then pool + 1 else if down then pool - 1 else pool)
              && r.scaledAt == s.scaledAt + (if up || down then [clock(r.readings)] else [])
              && (!down ==> Grown(s, r, missing + if up then 1 else 0) && r.sent == s.sent && r.timers == s.timers)
              && (down ==> exists id :: DrainsNewest(cfg, s, r, id, now))
  {
    var s := trace[i];
    hide Core, Spawned, Live, Grown, DrainsNewest, Run;
    RunKeeps(cfg, clock, trace, i);
    RunIsValid(cfg, clock, trace);
    if !s.shuttingDown && !s.paused {
      TickOf(cfg, clock, s, util);
    }
  }

  lemma RunIsValid(cfg: Config, clock: Clock, trace: seq<State>)
    requires Run(cfg, clock, trace)
    ensures cfg.Valid() && Monotone(clock)
  {
  }

  lemma TickOf(cfg: Config, clock: Clock, s: State, util: real)
    requires cfg.Valid() && Monotone(clock) && Inv(cfg, clock, s) && !s.shuttingDown && !s.paused
    ensures var r := AfterTick(cfg, clock, s, util);
            var missing := Short(cfg, Live(s.children));
            var pool, now := Live(s.children) + missing, clock(s.readings + missing + 1);
            var up, down := ScalesUp(cfg, s, util, pool, now), ScalesDown(cfg, s, util, pool, now);
            && !(up && down)
            && Live(r.children) == (if up then pool + 1 else if down then pool - 1 else pool)
            && r.scaledAt == s.scaledAt + (if up || down then [clock(r.readings)] else [])
            && (!down ==> Grown(s, r, missing + if up then 1 else 0) && r.sent == s.sent && r.timers == s.timers)
            && (down ==> exists id :: DrainsNewest(cfg, s, r, id, now))
  {
    hide Inv, Core, Spawned, Live, Grown, DrainsNewest, EnsureFloor, MarkScaled, AfterTick, Spawn, DrainOne, CooledDown;
    var missing := Short(cfg, Live(s.children));
    var e := EnsureFloor(cfg, clock, s);
    TickAfterFloor(cfg, clock, s, util);
    SpawnedKeepsScaling(clock, s, e, missing);
    SpawnedGrows(clock, s, e, missing);
    GrownIgnoresRead(s, e, missing);
    NoneMissing(cfg, clock, s);
    var pool, now := Live(s.children) + missing, clock(s.readings + missing + 1);
    if ScalesUp(cfg, s, util, pool, now) {
      ScaleUpGrows(cfg, clock, s, e, missing);
    } else if ScalesDown(cfg, s, util, pool, now) {
      var id := ScaleDownDrains(cfg, clock, s);
    }
  }

  // ----- exits -----

  /** The dead child is forgotten, with its kill timer if it had one; who else is there, and what was sent, is as before. */
  ghost predicate Forgets(s: State, r: State, id: nat) {
    && id in s.children && r.children == s.children - {id}
    && r.timers == (if s.children[id].killTimer.Some? then s.timers - {s.children[id].killTimer.value} else s.timers)
    && r.sent == s.sent && r.nextId == s.nextId && r.paused == s.paused && r.shuttingDown == s.shuttingDown
  }

  /** Fast crashes, this one included, since the last reset and within the window that ends at this one. */
  ghost function RecentCrashes(cfg: Config, s: State, now: real): nat {
    |Recent(s.fastCrashes + [now], now - cfg.crashWindowMs)|
  }

  /** A child died young: respawning waits for one new timer, or pauses until it. */
  ghost predicate BacksOff(cfg: Config, clock: Clock, s: State, r: State, id: nat, now: real) {
    var loop := RecentCrashes(cfg, s, now) >= 3 * cfg.max;
    && id in s.children && r.children == s.children - {id} && r.sent == s.sent && r.nextId == s.nextId
    && r.paused == (s.paused || loop) && r.fastCrashes == s.fastCrashes + [now]
    && r.timers == s.timers[s.nextTimer := if loop then Timer(now + cfg.crashPauseMs, Unpause)
                                           else Timer(now + cfg.crashBackoffMs, RestoreFloor)]
  }

  lemma ExitOfDraining(cfg: Config, clock: Clock, s: State, id: nat)
    requires id in s.running && id in s.children && (s.shuttingDown || s.children[id].draining)
    ensures var r := Apply(cfg, clock, s, Exit(id));
            && Forgets(s, r, id)
            && r.completions == s.completions +
               if s.shuttingDown && s.onCompleteSet && s.children.Keys == {id} then 1 else 0
  {
    LastLeaves(s.children, id);
  }

  lemma LastLeaves(children: map<nat, Child>, id: nat)
    requires id in children
    ensures children - {id} == map[] <==> children.Keys == {id}
  {
    var rest := children - {id};
    assert rest.Keys == children.Keys - {id};
    assert rest == map[] <==> rest.Keys == {};
    assert children.Keys == rest.Keys + {id};
  }

  lemma ExitOfFast(cfg: Config, clock: Clock, s: State, id: nat)
    requires Inv(cfg, clock, s) && Monotone(clock) && id in s.children && !s.shuttingDown && !s.children[id].draining
    requires id in s.running && clock(s.readings + 1) - s.children[id].startedAt < cfg.crashFastMs
    requires s.running[id] == s.children[id].startedAt
    ensures BacksOff(cfg, clock, s, Apply(cfg, clock, s, Exit(id)), id, clock(s.readings + 2))
  {
    hide Core, FloorHeld, Bounded, CrashWindow, Recent, DropOld, Live;
    LiveHasNoKillTimer(cfg, clock, s, id);
    TrackedIsRunning(cfg, clock, s, id);
    hide Inv;
    FastCrash(cfg, clock, s, id);
    hide EnsureFloor, FinishShutdown;
  }

  lemma LiveHasNoKillTimer(cfg: Config, clock: Clock, s: State, id: nat)
    requires Inv(cfg, clock, s) && id in s.children && !s.children[id].draining
    ensures s.children[id].killTimer.None?
  {
  }

  lemma ExitOfSlow(cfg: Config, clock: Clock, s: State, id: nat)
    requires cfg.Valid() && Monotone(clock) && Inv(cfg, clock, s)
    requires id in s.children && !s.shuttingDown && !s.children[id].draining
    requires id in s.running && s.running[id] == s.children[id].startedAt
    requires clock(s.readings + 1) - s.children[id].startedAt >= cfg.crashFastMs
    ensures var r, gone := Apply(cfg, clock, s, Exit(id)), s.(children := s.children - {id}, running := s.running - {id});
            Spawned(clock, Read(gone), r, if s.paused then 0 else Short(cfg, Live(s.children) - 1))
  {
    hide Core, Spawned, EnsureFloor, Live, FloorHeld, Bounded, FinishShutdown, AfterFastCrash, Pending;
    LiveHasNoKillTimer(cfg, clock, s, id);
    var f := Forget(s.(running := s.running - {id}), id);
    ForgetKeeps(cfg, clock, s, f, id);
    ReadKeeps(cfg, clock, f);
    FloorSpawns(cfg, clock, Read(f));
  }

  /**
   * In every run, the exit of a process is that of a tracked child. During shutdown, or when the child was
   * draining, nothing is spawned; after a fast crash one timer is armed, with the longer delay in a crash
   * loop; after any other exit the floor is restored on the spot.
   */
  lemma ExitReactsExactly(cfg: Config, clock: Clock, trace: seq<State>, i: nat, id: nat)
    requires Run(cfg, clock, trace) && i < |trace| && id in trace[i].running
    ensures id in trace[i].children
    ensures var s, r := trace[i], Apply(cfg, clock, trace[i], Exit(id));
            var gone := s.(children := s.children - {id}, running := s.running - {id});
            if s.shuttingDown || s.children[id].draining then
              && Forgets(s, r, id)
              && r.completions == s.completions +
                 if s.shuttingDown && s.onCompleteSet && s.children.Keys == {id} then 1 else 0
            else if clock(s.readings + 1) - s.children[id].startedAt < cfg.crashFastMs then
              BacksOff(cfg, clock, s, r, id, clock(s.readings + 2))
            else
              Spawned(clock, Read(gone), r, if s.paused then 0 else Short(cfg, Live(s.children) - 1))
  {
    var s := trace[i];
    RunKeeps(cfg, clock, trace, i);
    RunIsValid(cfg, clock, trace);
    hide Run, Core, Spawned, Live, Forgets, BacksOff, Apply;
    RunningIsTracked(cfg, clock, s, id);
    if s.shuttingDown || s.children[id].draining {
      ExitOfDraining(cfg, clock, s, id);
    } else if clock(s.readings + 1) - s.children[id].startedAt < cfg.crashFastMs {
      ExitOfFast(cfg, clock, s, id);
    } else {
      ExitOfSlow(cfg, clock, s, id);
    }
  }

  // ----- shutdown -----

  /** Each tracked child gets the signal once, in the order of the ids, and nobody else gets any. */
  ghost predicate SignalsEach(children: map<nat, Child>, more: seq<Sent>, signal: Signal, now: real) {
    && (forall id :: id in children <==> Sent(id, signal, now) in more)
    && (forall e :: e in more ==> e == Sent(e.id, signal, now))
    && (forall j, k :: 0 <= j < k < |more| ==> more[j].id < more[k].id)
  }

  ghost predicate Increasing(more: seq<Sent>, bound: nat) {
    && (forall k :: 0 <= k < |more| ==> more[k].id < bound)
    && (forall j, k :: 0 <= j < k < |more| ==> more[j].id < more[k].id)
  }

  lemma {:induction false} SignalAllOnce(children: map<nat, Child>, bound: nat, signal: Signal, now: real)
    ensures Increasing(SignalAll(children, bound, signal, now), bound)
    decreases bound
  {
    if bound > 0 {
      SignalAllOnce(children, bound - 1, signal, now);
      assert SignalAll(children, bound, signal, now)
          == SignalAll(children, bound - 1, signal, now) + if bound - 1 in children then [Sent(bound - 1, signal, now)] else [];
    }
  }

  lemma SendAllSignals(clock: Clock, s: State, signal: Signal) returns (more: seq<Sent>)
    requires Numbered(s)
    ensures SendAll(clock, s, signal) == s.(sent := s.sent + more)
    ensures SignalsEach(s.children, more, signal, Now(clock, s))
  {
    more := SignalAll(s.children, s.nextId, signal, Now(clock, s));
    SignalAllReaches(s.children, s.nextId, signal, Now(clock, s));
    SignalAllOnce(s.children, s.nextId, signal, Now(clock, s));
    hide SignalAll;
  }

  /** In every run, the first `shutdown` warns everyone and arms the deadline, or completes at once when nobody is there. */
  lemma ShutdownReactsExactly(cfg: Config, clock: Clock, trace: seq<State>, i: nat) returns (more: seq<Sent>)
    requires Run(cfg, clock, trace) && i < |trace|
    ensures var s, r := trace[i], Apply(cfg, clock, trace[i], Shutdown);
            if s.shuttingDown then r == s
            else
              && SignalsEach(s.children, more, SIGTERM, Now(clock, s)) && r.sent == s.sent + more
              && r.shuttingDown && r.children == s.children
              && (s.children == map[] ==> r.completions == s.completions + 1 && r.timers == s.timers)
              && (s.children != map[] ==>
                    && r.completions == s.completions
                    && r.timers == s.timers[s.nextTimer := Timer(Now(clock, s) + cfg.drainMs, ShutdownDeadline)])
  {
    var s := trace[i];
    hide Run, SignalsEach, Numbered, SendAll;
    RunIsNumbered(cfg, clock, trace, i);
    more := SendAllSignals(clock, s, SIGTERM);
    ShutdownSends(clock, s, more);
  }

  lemma RunIsNumbered(cfg: Config, clock: Clock, trace: seq<State>, i: nat)
    requires Run(cfg, clock, trace) && i < |trace|
    ensures Numbered(trace[i])
  {
    hide Run, Core, FloorHeld, Bounded, Numbered;
    RunKeeps(cfg, clock, trace, i);
    InvIsNumbered(cfg, clock, trace[i]);
  }

  lemma ShutdownSends(clock: Clock, s: State, more: seq<Sent>)
    requires SendAll(clock, s, SIGTERM) == s.(sent := s.sent + more)
    ensures SendAll(clock, s.(shuttingDown := true, onCompleteSet := true), SIGTERM)
         == s.(shuttingDown := true, onCompleteSet := true, sent := s.sent + more)
  {
  }

  // ----- timers -----

  /** In every run, a timer that comes due is gone, and does what it was armed for. */
  lemma FireReactsExactly(cfg: Config, clock: Clock, trace: seq<State>, i: nat, t: nat) returns (more: seq<Sent>)
    requires Run(cfg, clock, trace) && i < |trace| && Enabled(clock, trace[i], Fire(t))
    ensures var s, r := trace[i], Apply(cfg, clock, trace[i], Fire(t));
            var rest := s.(timers := s.timers - {t});
            match s.timers[t].action
            case DrainKill(id) =>
              id in s.children && r == rest.(sent := s.sent + [Sent(id, SIGKILL, Now(clock, s))])
            case ShutdownDeadline =>
              && SignalsEach(s.children, more, SIGKILL, Now(clock, s)) && r.sent == s.sent + more
              && r.children == s.children && r.timers == rest.timers
              && r.completions == s.completions + if s.onCompleteSet then 1 else 0
            case RestoreFloor => Spawned(clock, rest, r, FloorCalls(cfg, s))
            case Unpause =>
              && !r.paused && r.crashTimes == [] && r.timers == rest.timers
              && Spawned(clock, rest.(paused := false, crashTimes := [], fastCrashes := []), r,
                         if s.shuttingDown then 0 else Short(cfg, Live(s.children)))
  {
    var s := trace[i];
    RunKeeps(cfg, clock, trace, i);
    RunIsValid(cfg, clock, trace);
    more := [];
    hide Run;
    match s.timers[t].action
    case DrainKill(id) => FireDrainKillKeeps(cfg, clock, s, t);
    case ShutdownDeadline =>
      InvIsNumbered(cfg, clock, s);
      hide Inv, SignalsEach, Numbered;
      more := SendAllSignals(clock, s.(timers := s.timers - {t}), SIGKILL);
    case RestoreFloor => FloorTimerFires(cfg, clock, s, t);
    case Unpause => UnpauseFires(cfg, clock, s, t);
  }

  lemma FloorTimerFires(cfg: Config, clock: Clock, s: State, t: nat)
    requires cfg.Valid() && Monotone(clock) && Inv(cfg, clock, s) && t in s.timers && s.timers[t].action == RestoreFloor
    ensures var rest := s.(timers := s.timers - {t}); Spawned(clock, rest, EnsureFloor(cfg, clock, rest), FloorCalls(cfg, s))
  {
    hide Core, Spawned, EnsureFloor, Live;
    FiredKeeps(cfg, clock, s, t);
    FloorSpawns(cfg, clock, s.(timers := s.timers - {t}));
  }

  lemma UnpauseFires(cfg: Config, clock: Clock, s: State, t: nat)
    requires cfg.Valid() && Monotone(clock) && Inv(cfg, clock, s) && t in s.timers && s.timers[t].action == Unpause
    ensures var q := s.(timers := s.timers - {t}, paused := false, crashTimes := [], fastCrashes := []);
            && Spawned(clock, q, EnsureFloor(cfg, clock, q), if s.shuttingDown then 0 else Short(cfg, Live(s.children)))
            && !EnsureFloor(cfg, clock, q).paused && EnsureFloor(cfg, clock, q).crashTimes == []
            && EnsureFloor(cfg, clock, q).timers == q.timers
  {
    var q := s.(paused := false, crashTimes := [], fastCrashes := []);
    FiredKeeps(cfg, clock, q, t);
    hide Core, EnsureFloor, Live, Grown;
    FloorSpawns(cfg, clock, q.(timers := q.timers - {t}));
  }

  /** The pool starts at its floor, with nothing pending. */
  lemma StartsAtFloor(cfg: Config, clock: Clock)
    requires cfg.Valid() && Monotone(clock)
    ensures var s := Started(cfg, clock);
            Live(s.children) == cfg.min && (forall id: nat :: id in s.children <==> 1 <= id <= cfg.min)
            && s.timers == map[] && s.sent == [] && !s.paused && !s.shuttingDown && s.scaledAt == []
  {
    StartedHolds(cfg, clock);
    hide Inv, SpawnMany;
    SpawnManySpawns(clock, EMPTY, cfg.min);
  }
}
