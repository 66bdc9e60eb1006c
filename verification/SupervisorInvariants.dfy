/** What every step of the supervisor keeps. */
module SupervisorInvariants {
  import opened Wrappers
  import opened SupervisorConfig
  import opened SupervisorModel

  // ----- the invariant, by topic -----

  /** The supervisor tracks exactly the processes that are alive, numbered in order of their start. */
  ghost predicate Tracked(now: real, children: map<nat, Child>, running: map<nat, real>, nextId: nat) {
    && running.Keys == children.Keys
    && (forall id :: id in children ==> id < nextId && running[id] == children[id].startedAt <= now)
    && (forall i, j :: i in children && j in children && i < j ==> children[i].startedAt <= children[j].startedAt)
  }

  /** `id` received SIGTERM no later than `latest`. */
  ghost predicate Warned(sent: seq<Sent>, id: nat, latest: real) {
    exists i :: 0 <= i < |sent| && sent[i].id == id && sent[i].signal == SIGTERM && sent[i].at <= latest
  }

  /** `id` received SIGKILL. */
  ghost predicate Killed(sent: seq<Sent>, id: nat) {
    exists i :: 0 <= i < |sent| && sent[i].id == id && sent[i].signal == SIGKILL
  }

  /** Exactly the draining children hold a kill timer; while it is pending it is aimed at its holder. */
  ghost predicate KillTimers(cfg: Config, children: map<nat, Child>, timers: map<nat, Timer>,
                             nextTimer: nat, sent: seq<Sent>) {
    && (forall t :: t in timers ==> t < nextTimer)
    && (forall id :: id in children ==>
          && (children[id].draining <==> children[id].killTimer.Some?)
          && (children[id].draining ==> KillTimer(cfg, timers, nextTimer, sent, id, children[id].killTimer.value)))
    && (forall t :: t in timers && timers[t].action.DrainKill? ==>
          timers[t].action.id in children && children[timers[t].action.id].killTimer == Some(t))
  }

  ghost predicate KillTimer(cfg: Config, timers: map<nat, Timer>, nextTimer: nat, sent: seq<Sent>, id: nat, t: nat) {
    && t < nextTimer
    && if t in timers then
         timers[t].action == DrainKill(id) && Warned(sent, id, timers[t].due - cfg.drainMs)
       else Killed(sent, id)
  }

  /** Every SIGKILL was preceded, by `drainMs` or more, by a SIGTERM to the same child. */
  ghost predicate KillsWarned(cfg: Config, sent: seq<Sent>) {
    forall j :: 0 <= j < |sent| && sent[j].signal == SIGKILL ==>
      Warned(sent[..j], sent[j].id, sent[j].at - cfg.drainMs)
  }

  /** The shutdown deadline exists only during shutdown, `drainMs` after everyone was warned. */
  ghost predicate Deadlines(cfg: Config, children: map<nat, Child>, timers: map<nat, Timer>,
                            sent: seq<Sent>, shuttingDown: bool) {
    forall t :: t in timers && timers[t].action.ShutdownDeadline? ==>
      && shuttingDown
      && forall id :: id in children ==> Warned(sent, id, timers[t].due - cfg.drainMs)
  }

  ghost predicate Pending(timers: map<nat, Timer>, actions: set<Action>) {
    exists t :: t in timers && timers[t].action in actions
  }

  /** The completion callback is armed from `shutdown` until it has run, and runs once. */
  ghost predicate Completion(s: State) {
    && s.completions == (if s.shuttingDown && !s.onCompleteSet then 1 else 0)
    && (s.onCompleteSet ==> s.shuttingDown && s.children != map[] && Pending(s.timers, {ShutdownDeadline}))
  }

  /** Autoscale actions are recorded at least `cooldownMs` apart. */
  ghost predicate Cooldown(cfg: Config, now: real, lastScaleAt: Option<real>, scaledAt: seq<real>) {
    && lastScaleAt == (if scaledAt == [] then None else Some(scaledAt[|scaledAt| - 1]))
    && (forall i :: 0 <= i < |scaledAt| ==> scaledAt[i] <= now)
    && (forall i :: 0 < i < |scaledAt| ==> scaledAt[i] - scaledAt[i - 1] >= cfg.cooldownMs)
  }

  /** The entries at or after the cutoff, wherever they stand. */
  function Recent(times: seq<real>, cutoff: real): seq<real> {
    if times == [] then []
    else Recent(times[..|times| - 1], cutoff)
         + if times[|times| - 1] >= cutoff then [times[|times| - 1]] else []
  }

  ghost predicate Sorted(times: seq<real>) {
    forall i, j :: 0 <= i < j < |times| ==> times[i] <= times[j]
  }

  ghost predicate AllUpTo(times: seq<real>, top: real) {
    forall i :: 0 <= i < |times| ==> times[i] <= top
  }

  /** The entries of the window of the given length that ends at the last entry. */
  ghost function WindowOf(times: seq<real>, length: real): seq<real> {
    if times == [] then [] else Recent(times, times[|times| - 1] - length)
  }

  /** The crash counter holds the fast crashes of the window that ends at the latest one. */
  ghost predicate CrashWindow(cfg: Config, now: real, crashTimes: seq<real>, fastCrashes: seq<real>) {
    && Sorted(fastCrashes) && AllUpTo(fastCrashes, now)
    && crashTimes == WindowOf(fastCrashes, cfg.crashWindowMs)
  }

  /** What holds even between the parts of one step. */
  ghost predicate Core(cfg: Config, clock: Clock, s: State) {
    && Tracked(Now(clock, s), s.children, s.running, s.nextId)
    && KillTimers(cfg, s.children, s.timers, s.nextTimer, s.sent)
    && KillsWarned(cfg, s.sent)
    && Deadlines(cfg, s.children, s.timers, s.sent, s.shuttingDown)
    && Completion(s)
    && Cooldown(cfg, Now(clock, s), s.lastScaleAt, s.scaledAt)
    && CrashWindow(cfg, Now(clock, s), s.crashTimes, s.fastCrashes)
    && (s.paused ==> Pending(s.timers, {Unpause}))
  }

  /** The pool is at its floor, or a timer that restores it is pending. */
  ghost predicate FloorHeld(cfg: Config, s: State) {
    s.shuttingDown || Live(s.children) >= cfg.min || Pending(s.timers, {RestoreFloor, Unpause})
  }

  /** The pool never outgrows `max`, and crashes and live children share one budget. */
  ghost predicate Bounded(cfg: Config, s: State) {
    && Live(s.children) <= cfg.max
    && (!s.paused ==> |s.crashTimes| < 3 * cfg.max)
    && |s.crashTimes| + Live(s.children) <= 4 * cfg.max - 1
  }

  ghost predicate Inv(cfg: Config, clock: Clock, s: State) {
    Core(cfg, clock, s) && FloorHeld(cfg, s) && Bounded(cfg, s)
  }

  // ----- live children -----

  lemma LiveAfterAdding(children: map<nat, Child>, id: nat, c: Child)
    requires id !in children && !c.draining
    ensures Live(children[id := c]) == Live(children) + 1
  {
    assert LiveIds(children[id := c]) == LiveIds(children) + {id};
  }

  lemma LiveAfterLosing(children: map<nat, Child>, id: nat)
    ensures Live(children - {id}) == Live(children) - if id in LiveIds(children) then 1 else 0
  {
    assert LiveIds(children - {id}) == LiveIds(children) - {id};
  }

  lemma LiveAfterDraining(children: map<nat, Child>, id: nat, c: Child)
    requires id in LiveIds(children) && c.draining
    ensures Live(children[id := c]) == Live(children) - 1
  {
    assert LiveIds(children[id := c]) == LiveIds(children) - {id};
  }

  // ----- the crash window -----

  lemma {:induction false} RecentOfRecent(times: seq<real>, early: real, late: real)
    requires early <= late
    ensures Recent(Recent(times, early), late) == Recent(times, late)
  {
    if times != [] {
      var last := times[|times| - 1];
      var kept := Recent(times[..|times| - 1], early);
      RecentOfRecent(times[..|times| - 1], early, late);
      assert (kept + [last])[..|kept|] == kept;
      assert kept + [] == kept;
      assert Recent(kept, late) + [] == Recent(kept, late);
    }
  }

  lemma {:induction false} RecentSplit(a: seq<real>, b: seq<real>, cutoff: real)
    ensures Recent(a + b, cutoff) == Recent(a, cutoff) + Recent(b, cutoff)
  {
    if b == [] {
      assert a + b == a;
    } else {
      assert (a + b)[..|a + b| - 1] == a + b[..|b| - 1];
      RecentSplit(a, b[..|b| - 1], cutoff);
    }
  }

  lemma SortedAppend(times: seq<real>, top: real)
    requires Sorted(times) && AllUpTo(times, top)
    ensures Sorted(times + [top]) && AllUpTo(times + [top], top)
  {
  }

  lemma {:induction false} RecentKeepsOrder(times: seq<real>, cutoff: real, top: real)
    requires Sorted(times) && AllUpTo(times, top)
    ensures Sorted(Recent(times, cutoff)) && AllUpTo(Recent(times, cutoff), top)
  {
    if times != [] {
      var last := times[|times| - 1];
      RecentKeepsOrder(times[..|times| - 1], cutoff, last);
      SortedAppend(Recent(times[..|times| - 1], cutoff), last);
    }
  }

  lemma {:induction false} RecentKeepsAll(times: seq<real>, cutoff: real)
    requires forall i :: 0 <= i < |times| ==> times[i] >= cutoff
    ensures Recent(times, cutoff) == times
  {
    if times != [] {
      RecentKeepsAll(times[..|times| - 1], cutoff);
    }
  }

  /** On an ordered list, dropping from the front is the same as filtering. */
  lemma {:induction false} DropOldIsRecent(times: seq<real>, cutoff: real)
    requires Sorted(times)
    ensures DropOld(times, cutoff) == Recent(times, cutoff)
  {
    if times != [] && times[0] < cutoff {
      DropOldIsRecent(times[1..], cutoff);
      assert times == [times[0]] + times[1..];
      RecentSplit([times[0]], times[1..], cutoff);
      assert Recent([times[0]][..0], cutoff) == [];
    } else {
      RecentKeepsAll(times, cutoff);
    }
  }

  /** One entry later, the pruned counter is again the filtered history. */
  lemma PruningIsFiltering(h: seq<real>, early: real, late: real, now: real)
    requires Sorted(h) && AllUpTo(h, now) && early <= late
    ensures DropOld(Recent(h, early) + [now], late) == Recent(h + [now], late)
  {
    var kept := Recent(h, early);
    RecentKeepsOrder(h, early, now);
    SortedAppend(kept, now);
    DropOldIsRecent(kept + [now], late);
    RecentSplit(kept, [now], late);
    RecentOfRecent(h, early, late);
    RecentSplit(h, [now], late);
  }

  lemma WindowSlides(h: seq<real>, length: real, now: real)
    requires Sorted(h) && AllUpTo(h, now)
    ensures DropOld(WindowOf(h, length) + [now], now - length) == WindowOf(h + [now], length)
  {
    assert (h + [now])[|h|] == now;
    var early := if h == [] then now - length else h[|h| - 1] - length;
    assert WindowOf(h, length) == Recent(h, early);
    PruningIsFiltering(h, early, now - length, now);
  }

  lemma UpToLater(times: seq<real>, top: real, later: real)
    requires AllUpTo(times, top) && top <= later
    ensures AllUpTo(times, later)
  {
  }

  lemma RecordCrashKeeps(cfg: Config, clock: Clock, s: State)
    requires Monotone(clock) && CrashWindow(cfg, Now(clock, s), s.crashTimes, s.fastCrashes)
    ensures var r := RecordCrash(cfg, clock, s); CrashWindow(cfg, Now(clock, r), r.crashTimes, r.fastCrashes)
    ensures |RecordCrash(cfg, clock, s).crashTimes| <= |s.crashTimes| + 1
  {
    hide DropOld, WindowOf, Sorted, AllUpTo;
    var now := clock(s.readings + 1);
    UpToLater(s.fastCrashes, clock(s.readings), now);
    SortedAppend(s.fastCrashes, now);
    WindowSlides(s.fastCrashes, cfg.crashWindowMs, now);
    DropOldShrinks(s.crashTimes + [now], now - cfg.crashWindowMs);
  }

  lemma DropOldShrinks(times: seq<real>, cutoff: real)
    ensures |DropOld(times, cutoff)| <= |times|
  {
  }

  // ----- the parts of a step -----

  lemma WarnedMore(sent: seq<Sent>, more: seq<Sent>, id: nat, latest: real)
    requires Warned(sent, id, latest)
    ensures Warned(sent + more, id, latest)
  {
    var i :| 0 <= i < |sent| && sent[i].id == id && sent[i].signal == SIGTERM && sent[i].at <= latest;
    assert (sent + more)[i] == sent[i];
  }

  lemma KilledMore(sent: seq<Sent>, more: seq<Sent>, id: nat)
    requires Killed(sent, id)
    ensures Killed(sent + more, id)
  {
    var i :| 0 <= i < |sent| && sent[i].id == id && sent[i].signal == SIGKILL;
    assert (sent + more)[i] == sent[i];
  }

  lemma ReadKeeps(cfg: Config, clock: Clock, s: State)
    requires Monotone(clock) && Core(cfg, clock, s)
    ensures Core(cfg, clock, Read(s))
  {
  }

  lemma SpawnKeeps(cfg: Config, clock: Clock, s: State)
    requires Monotone(clock) && Core(cfg, clock, s)
    ensures Core(cfg, clock, Spawn(clock, s))
    ensures Live(Spawn(clock, s).children) == Live(s.children) + if s.shuttingDown || s.paused then 0 else 1
  {
    assert clock(s.readings) <= clock(s.readings + 1);
    if !s.shuttingDown && !s.paused {
      var r := Spawn(clock, s);
      LiveAfterAdding(s.children, s.nextId, Child(clock(s.readings + 1), false, None));
      assert Tracked(Now(clock, r), r.children, r.running, r.nextId);
      SpawnKeepsTimers(cfg, s, clock(s.readings + 1));
    }
  }

  lemma SpawnKeepsTimers(cfg: Config, s: State, at: real)
    requires KillTimers(cfg, s.children, s.timers, s.nextTimer, s.sent) && s.nextId !in s.children
    requires Deadlines(cfg, s.children, s.timers, s.sent, s.shuttingDown) && !s.shuttingDown
    ensures var children := s.children[s.nextId := Child(at, false, None)];
            && KillTimers(cfg, children, s.timers, s.nextTimer, s.sent)
            && Deadlines(cfg, children, s.timers, s.sent, s.shuttingDown)
  {
  }

  lemma {:induction false} SpawnManyKeeps(cfg: Config, clock: Clock, s: State, n: nat)
    requires Monotone(clock) && Core(cfg, clock, s) && !s.shuttingDown && !s.paused
    ensures var r := SpawnMany(clock, s, n);
            Core(cfg, clock, r) && Live(r.children) == Live(s.children) + n
    decreases n
  {
    if n > 0 {
      SpawnKeeps(cfg, clock, s);
      SpawnManyKeeps(cfg, clock, Spawn(clock, s), n - 1);
    }
  }

  /** Restoring the floor reaches it exactly, unless the supervisor is paused or shutting down. */
  lemma EnsureFloorKeeps(cfg: Config, clock: Clock, s: State)
    requires cfg.Valid() && Monotone(clock) && Core(cfg, clock, s)
    ensures var r := EnsureFloor(cfg, clock, s);
            && Core(cfg, clock, r)
            && Live(r.children) == (if s.shuttingDown || s.paused || Live(s.children) >= cfg.min
                                    then Live(s.children) else cfg.min)
            && FloorHeld(cfg, r)
            && (Bounded(cfg, s) ==> Bounded(cfg, r))
  {
    if !s.shuttingDown && !s.paused {
      SpawnManyKeeps(cfg, clock, s, Missing(cfg, s));
    } else if !s.shuttingDown {
    }
  }

  /** A new timer that is not a kill timer is nobody's kill timer. */
  lemma NewTimerKeepsKillTimers(cfg: Config, s: State, timer: Timer)
    requires KillTimers(cfg, s.children, s.timers, s.nextTimer, s.sent) && !timer.action.DrainKill?
    ensures KillTimers(cfg, s.children, s.timers[s.nextTimer := timer], s.nextTimer + 1, s.sent)
  {
  }

  lemma NewTimerKeepsDeadlines(cfg: Config, s: State, timer: Timer)
    requires Deadlines(cfg, s.children, s.timers, s.sent, s.shuttingDown) && !timer.action.ShutdownDeadline?
    ensures Deadlines(cfg, s.children, s.timers[s.nextTimer := timer], s.sent, s.shuttingDown)
  {
  }

  lemma PendingSurvives(timers: map<nat, Timer>, later: map<nat, Timer>, actions: set<Action>)
    requires forall t :: t in timers && timers[t].action in actions ==> t in later && later[t] == timers[t]
    ensures Pending(timers, actions) ==> Pending(later, actions)
  {
  }

  lemma PendingAfterSetTimer(s: State, timer: Timer, actions: set<Action>)
    requires forall t :: t in s.timers ==> t < s.nextTimer
    ensures Pending(s.timers, actions) || timer.action in actions
            ==> Pending(s.timers[s.nextTimer := timer], actions)
  {
    PendingSurvives(s.timers, s.timers[s.nextTimer := timer], actions);
    if timer.action in actions {
      assert s.timers[s.nextTimer := timer][s.nextTimer].action in actions;
    }
  }

  /** Arming a respawn timer is always safe; pausing is safe together with arming the timer that ends it. */
  lemma SetTimerKeeps(cfg: Config, clock: Clock, s: State, pause: bool, action: Action, ms: real)
    requires Core(cfg, clock, s) && action in {RestoreFloor, Unpause}
    requires pause ==> s.paused || action == Unpause
    ensures var r := SetTimer(clock, s.(paused := pause), action, ms);
            Core(cfg, clock, r) && FloorHeld(cfg, r)
  {
    hide KillTimers, KillsWarned, Deadlines, Tracked, Cooldown, CrashWindow, Pending, Live;
    var timer := Timer(Now(clock, s) + ms, action);
    TimersAreNumbered(cfg, s);
    NewTimerKeepsKillTimers(cfg, s, timer);
    NewTimerKeepsDeadlines(cfg, s, timer);
    PendingAfterSetTimer(s, timer, {Unpause});
    PendingAfterSetTimer(s, timer, {ShutdownDeadline});
    PendingAfterSetTimer(s, timer, {RestoreFloor, Unpause});
  }

  lemma TimersAreNumbered(cfg: Config, s: State)
    requires KillTimers(cfg, s.children, s.timers, s.nextTimer, s.sent)
    ensures forall t :: t in s.timers ==> t < s.nextTimer
  {
  }
}
