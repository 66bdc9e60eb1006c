/**
 * Webhook ingestion as a protocol: any number of concurrent deliveries, each stopping at the await
 * points of the handler, a database table with a unique event id, and a queue that dedups on job id.
 */
module BillingWebhook {
  import opened Wrappers

  datatype Status = Pending | Done(outcome: int)

  datatype Row = Row(event: int, status: Status)

  /** How a delivery ended; `ByCatch` is the acknowledgement given for a unique violation that was thrown. */
  datatype Reply = BadRequest | Unavailable | ServerError | Ack | AckByCatch

  /** Where a delivery stands: the awaits it has still ahead of it. */
  datatype Phase =
    | Arrived                 // signature not yet verified
    | Accepted                // verified, and a queue is configured
    | Conflicted              // the insert returned no row: the status is read next
    | MustEnqueue             // the job is added next
    | Added                   // the reply is sent next
    | Replied(reply: Reply)
    | Crashed

  datatype Delivery = Delivery(event: int, phase: Phase)

  datatype State = State(
    rows: seq<Row>,
    jobs: seq<int>,             // job ids, which are event ids
    deliveries: seq<Delivery>,
    enqueued: set<int>)         // history: every event for which a job was ever added

  predicate HasRow(rows: seq<Row>, event: int) {
    exists i :: 0 <= i < |rows| && rows[i].event == event
  }

  /** Insert-or-conflict on the unique event id, one atomic statement. */
  function Insert(rows: seq<Row>, event: int): seq<Row> {
    if HasRow(rows, event) then rows else rows + [Row(event, Pending)]
  }

  /** The status that a select by event id returns. */
  function StatusOf(rows: seq<Row>, event: int): Option<Status> {
    if rows == [] then None
    else if rows[0].event == event then Some(rows[0].status)
    else StatusOf(rows[1..], event)
  }

  /** `queue.add` with a job id: a job with that id makes it a no-op. */
  function Add(jobs: seq<int>, event: int): seq<int> {
    if event in jobs then jobs else jobs + [event]
  }

  datatype Step =
    | Deliver(event: int)                  // a new request arrives
    | Verify(d: nat, genuine: bool)        // lines 94-130
    | TryInsert(d: nat, raises: Option<bool>) // lines 138-157: Some(true) raises 23505, Some(false) another error
    | ReadStatus(d: nat)                   // lines 163-171
    | Enqueue(d: nat, fails: bool)         // lines 63-72
    | Respond(d: nat)                      // lines 173 and 179
    | Crash(d: nat)
    | Work(job: nat, outcome: int, forget: bool) // the worker settles the row of an enqueued job

  function Move(s: State, d: nat, phase: Phase): State
    requires d < |s.deliveries|
  {
    s.(deliveries := s.deliveries[d := s.deliveries[d].(phase := phase)])
  }

  ghost predicate Enabled(s: State, step: Step) {
    match step
    case Deliver(_) => true
    case Verify(d, _) => d < |s.deliveries| && s.deliveries[d].phase == Arrived
    case TryInsert(d, raises) =>
      && d < |s.deliveries| && s.deliveries[d].phase == Accepted
      && (raises == Some(true) ==> HasRow(s.rows, s.deliveries[d].event)) // only the event id is unique
    case ReadStatus(d) => d < |s.deliveries| && s.deliveries[d].phase == Conflicted
    case Enqueue(d, _) => d < |s.deliveries| && s.deliveries[d].phase == MustEnqueue
    case Respond(d) => d < |s.deliveries| && s.deliveries[d].phase == Added
    case Crash(d) => d < |s.deliveries| && !s.deliveries[d].phase.Replied?
    case Work(j, _, _) => j < |s.jobs|
  }

  function Settle(rows: seq<Row>, event: int, outcome: int): seq<Row> {
    seq(|rows|, i requires 0 <= i < |rows| => if rows[i].event == event then Row(event, Done(outcome)) else rows[i])
  }

  function Apply(queueConfigured: bool, s: State, step: Step): State
    requires Enabled(s, step)
  {
    match step
    case Deliver(event) => s.(deliveries := s.deliveries + [Delivery(event, Arrived)])
    case Verify(d, genuine) =>
      Move(s, d, if !genuine then Replied(BadRequest) else if !queueConfigured then Replied(Unavailable) else Accepted)
    case TryInsert(d, raises) =>
      var event := s.deliveries[d].event;
      if raises.Some? then Move(s, d, Replied(if raises.value then AckByCatch else ServerError))
      else if HasRow(s.rows, event) then Move(s, d, Conflicted)
      else Move(s.(rows := Insert(s.rows, event)), d, MustEnqueue)
    case ReadStatus(d) =>
      Move(s, d, if StatusOf(s.rows, s.deliveries[d].event) == Some(Pending) then MustEnqueue else Replied(Ack))
    case Enqueue(d, fails) =>
      var event := s.deliveries[d].event;
      if fails then Move(s, d, Replied(ServerError))
      else Move(s.(jobs := Add(s.jobs, event), enqueued := s.enqueued + {event}), d, Added)
    case Respond(d) => Move(s, d, Replied(Ack))
    case Crash(d) => Move(s, d, Crashed)
    case Work(j, outcome, forget) =>
      s.(rows := Settle(s.rows, s.jobs[j], outcome), jobs := if forget then s.jobs[..j] + s.jobs[j + 1..] else s.jobs)
  }

  const EMPTY := State([], [], [], {})

  ghost predicate Run(queueConfigured: bool, trace: seq<State>) {
    && trace != [] && trace[0] == EMPTY
    && forall i :: 0 <= i < |trace| - 1 ==> Next(queueConfigured, trace[i], trace[i + 1])
  }

  ghost predicate Next(queueConfigured: bool, s: State, r: State) {
    exists step :: Enabled(s, step) && r == Apply(queueConfigured, s, step)
  }

  // ----- the invariant -----

  ghost predicate OneRowEach(rows: seq<Row>) {
    forall i, j :: 0 <= i < j < |rows| ==> rows[i].event != rows[j].event
  }

  ghost predicate OneJobEach(jobs: seq<int>) {
    forall i, j :: 0 <= i < j < |jobs| ==> jobs[i] != jobs[j]
  }

  /** What a delivery in a given phase has already made sure of. */
  ghost predicate Justified(s: State, d: Delivery) {
    match d.phase
    case Conflicted => HasRow(s.rows, d.event)
    case MustEnqueue => HasRow(s.rows, d.event)
    case Added => HasRow(s.rows, d.event) && d.event in s.enqueued
    case Replied(reply) =>
      && (reply in {Ack, AckByCatch} ==> HasRow(s.rows, d.event))
      && (reply == Ack ==> d.event in s.enqueued)
    case _ => true
  }

  ghost predicate Inv(queueConfigured: bool, s: State) {
    && OneRowEach(s.rows) && OneJobEach(s.jobs)
    && (forall i :: 0 <= i < |s.jobs| ==> s.jobs[i] in s.enqueued)
    && (forall i :: 0 <= i < |s.rows| ==> s.rows[i].status != Pending ==> s.rows[i].event in s.enqueued)
    && (forall d :: 0 <= d < |s.deliveries| ==> Justified(s, s.deliveries[d]))
    && (!queueConfigured ==>
          s.rows == [] && forall d :: 0 <= d < |s.deliveries| ==> !(s.deliveries[d].phase in {Accepted, Conflicted, MustEnqueue, Added}))
  }

  lemma {:induction false} StatusIsOfARow(rows: seq<Row>, event: int)
    ensures StatusOf(rows, event).Some? <==> HasRow(rows, event)
    ensures StatusOf(rows, event).Some? ==>
              exists i :: 0 <= i < |rows| && rows[i].event == event && rows[i].status == StatusOf(rows, event).value
  {
    if rows != [] {
      StatusIsOfARow(rows[1..], event);
      if HasRow(rows, event) && rows[0].event != event {
        var i :| 0 <= i < |rows| && rows[i].event == event;
        assert rows[1..][i - 1].event == event;
      }
    }
  }

  lemma MoveKeeps(q: bool, s: State, d: nat, phase: Phase)
    requires Inv(q, s) && d < |s.deliveries|
    requires Justified(s, Delivery(s.deliveries[d].event, phase))
    requires q || phase !in {Accepted, Conflicted, MustEnqueue, Added}
    ensures Inv(q, Move(s, d, phase))
  {
    var r := Move(s, d, phase);
    forall e | 0 <= e < |r.deliveries| ensures Justified(r, r.deliveries[e]) {
      assert Justified(s, s.deliveries[e]);
    }
  }

  lemma InsertKeeps(q: bool, s: State, event: int)
    requires Inv(q, s) && q && !HasRow(s.rows, event)
    ensures Inv(q, s.(rows := Insert(s.rows, event))) && HasRow(Insert(s.rows, event), event)
  {
    var rows := Insert(s.rows, event);
    assert rows[|s.rows|].event == event;
    forall other | HasRow(s.rows, other) ensures HasRow(rows, other) {
      var i :| 0 <= i < |s.rows| && s.rows[i].event == other;
      assert rows[i].event == other;
    }
    forall d | 0 <= d < |s.deliveries| ensures Justified(s.(rows := rows), s.deliveries[d]) {
      assert Justified(s, s.deliveries[d]);
    }
  }

  lemma EnqueueKeeps(q: bool, s: State, event: int)
    requires Inv(q, s)
    ensures Inv(q, s.(jobs := Add(s.jobs, event), enqueued := s.enqueued + {event}))
  {
    var r := s.(jobs := Add(s.jobs, event), enqueued := s.enqueued + {event});
    forall d | 0 <= d < |s.deliveries| ensures Justified(r, s.deliveries[d]) {
      assert Justified(s, s.deliveries[d]);
    }
  }

  lemma WorkKeeps(q: bool, s: State, j: nat, outcome: int, jobs: seq<int>)
    requires Inv(q, s) && j < |s.jobs| && (jobs == s.jobs || jobs == s.jobs[..j] + s.jobs[j + 1..])
    ensures Inv(q, s.(rows := Settle(s.rows, s.jobs[j], outcome), jobs := jobs))
  {
    var rows := Settle(s.rows, s.jobs[j], outcome);
    assert forall i :: 0 <= i < |rows| ==> rows[i].event == s.rows[i].event;
    forall other | HasRow(s.rows, other) ensures HasRow(rows, other) {
      var i :| 0 <= i < |s.rows| && s.rows[i].event == other;
      assert rows[i].event == other;
    }
    forall d | 0 <= d < |s.deliveries| ensures Justified(s.(rows := rows, jobs := jobs), s.deliveries[d]) {
      assert Justified(s, s.deliveries[d]);
    }
  }

  lemma StepKeeps(q: bool, s: State, step: Step)
    requires Inv(q, s) && Enabled(s, step)
    ensures Inv(q, Apply(q, s, step))
  {
    match step
    case Deliver(event) =>
      var r := Apply(q, s, step);
      forall d | 0 <= d < |r.deliveries| ensures Justified(r, r.deliveries[d]) {
        if d < |s.deliveries| {
          assert Justified(s, s.deliveries[d]);
        }
      }
    case TryInsert(d, raises) =>
      var event := s.deliveries[d].event;
      if raises.None? && !HasRow(s.rows, event) {
        InsertKeeps(q, s, event);
        MoveKeeps(q, s.(rows := Insert(s.rows, event)), d, MustEnqueue);
      } else {
        MoveKeeps(q, s, d, Apply(q, s, step).deliveries[d].phase);
      }
    case Enqueue(d, fails) =>
      var event := s.deliveries[d].event;
      assert Justified(s, s.deliveries[d]);
      if fails {
        MoveKeeps(q, s, d, Replied(ServerError));
      } else {
        EnqueueKeeps(q, s, event);
        MoveKeeps(q, s.(jobs := Add(s.jobs, event), enqueued := s.enqueued + {event}), d, Added);
      }
    case ReadStatus(d) =>
      assert Justified(s, s.deliveries[d]);
      StatusIsOfARow(s.rows, s.deliveries[d].event);
      MoveKeeps(q, s, d, Apply(q, s, step).deliveries[d].phase);
    case Respond(d) =>
      assert Justified(s, s.deliveries[d]);
      MoveKeeps(q, s, d, Replied(Ack));
    case Verify(d, _) => MoveKeeps(q, s, d, Apply(q, s, step).deliveries[d].phase);
    case Crash(d) => MoveKeeps(q, s, d, Crashed);
    case Work(j, outcome, forget) =>
      WorkKeeps(q, s, j, outcome, if forget then s.jobs[..j] + s.jobs[j + 1..] else s.jobs);
  }

  lemma {:induction false} RunKeeps(q: bool, trace: seq<State>, i: nat)
    requires Run(q, trace) && i < |trace|
    ensures Inv(q, trace[i])
  {
    if i > 0 {
      RunKeeps(q, trace, i - 1);
      assert Next(q, trace[i - 1], trace[i - 1 + 1]);
      var step :| Enabled(trace[i - 1], step) && trace[i] == Apply(q, trace[i - 1], step);
      StepKeeps(q, trace[i - 1], step);
    }
  }

  // ----- what became of an event -----

  predicate HasSettled(rows: seq<Row>, event: int) {
    exists i :: 0 <= i < |rows| && rows[i].event == event && rows[i].status != Pending
  }

  /** Enqueueing is still ahead of the delivery, or it ended without it. */
  predicate Owes(d: Delivery, event: int) {
    d.event == event && d.phase in {MustEnqueue, Replied(ServerError), Crashed}
  }

  ghost predicate Owed(s: State, event: int) {
    exists d :: 0 <= d < |s.deliveries| && Owes(s.deliveries[d], event)
  }

  /** An enqueued event has its job or a settled row to show; one that has a row only has a delivery that owes the rest. */
  ghost predicate Accounted(s: State) {
    && (forall event :: event in s.enqueued ==> HasRow(s.rows, event) && (event in s.jobs || HasSettled(s.rows, event)))
    && (forall event :: HasRow(s.rows, event) && event !in s.enqueued ==> Owed(s, event))
  }

  lemma MoveAccounts(s: State, d: nat, phase: Phase)
    requires Accounted(s) && d < |s.deliveries|
    requires var now := s.deliveries[d];
             Owes(now, now.event) ==> Owes(now.(phase := phase), now.event) || now.event in s.enqueued
    ensures Accounted(Move(s, d, phase))
  {
    var r := Move(s, d, phase);
    forall event | HasRow(r.rows, event) && event !in r.enqueued ensures Owed(r, event) {
      var e :| 0 <= e < |s.deliveries| && Owes(s.deliveries[e], event);
      assert Owes(r.deliveries[e], event);
    }
  }

  lemma DeliverAccounts(s: State, event: int)
    requires Accounted(s)
    ensures Accounted(s.(deliveries := s.deliveries + [Delivery(event, Arrived)]))
  {
    var r := s.(deliveries := s.deliveries + [Delivery(event, Arrived)]);
    forall other | HasRow(r.rows, other) && other !in r.enqueued ensures Owed(r, other) {
      var d :| 0 <= d < |s.deliveries| && Owes(s.deliveries[d], other);
      assert Owes(r.deliveries[d], other);
    }
  }

  /** The row and the promise to enqueue its event appear in one step. */
  lemma InsertAccounts(s: State, d: nat)
    requires Accounted(s) && d < |s.deliveries| && s.deliveries[d].phase == Accepted
    requires !HasRow(s.rows, s.deliveries[d].event)
    ensures Accounted(Move(s.(rows := Insert(s.rows, s.deliveries[d].event)), d, MustEnqueue))
  {
    var event := s.deliveries[d].event;
    var r := Move(s.(rows := Insert(s.rows, event)), d, MustEnqueue);
    assert forall i :: 0 <= i < |s.rows| ==> r.rows[i] == s.rows[i];
    forall other | other in r.enqueued
      ensures HasRow(r.rows, other) && (other in r.jobs || HasSettled(r.rows, other))
    {
      var i :| 0 <= i < |s.rows| && s.rows[i].event == other;
      assert r.rows[i].event == other;
      if HasSettled(s.rows, other) {
        var k :| 0 <= k < |s.rows| && s.rows[k].event == other && s.rows[k].status != Pending;
        assert r.rows[k].event == other;
      }
    }
    forall other | HasRow(r.rows, other) && other !in r.enqueued ensures Owed(r, other) {
      if other == event {
        assert Owes(r.deliveries[d], event);
      } else {
        var i :| 0 <= i < |r.rows| && r.rows[i].event == other;
        assert HasRow(s.rows, other);
        var e :| 0 <= e < |s.deliveries| && Owes(s.deliveries[e], other);
        assert Owes(r.deliveries[e], other);
      }
    }
  }

  lemma EnqueueAccounts(s: State, event: int)
    requires Accounted(s) && HasRow(s.rows, event)
    ensures Accounted(s.(jobs := Add(s.jobs, event), enqueued := s.enqueued + {event}))
  {
    var r := s.(jobs := Add(s.jobs, event), enqueued := s.enqueued + {event});
    forall other | HasRow(r.rows, other) && other !in r.enqueued ensures Owed(r, other) {
      var d :| 0 <= d < |s.deliveries| && Owes(s.deliveries[d], other);
      assert Owes(r.deliveries[d], other);
    }
  }

  lemma WorkAccounts(s: State, j: nat, outcome: int, jobs: seq<int>)
    requires Accounted(s) && j < |s.jobs| && s.jobs[j] in s.enqueued
    requires jobs == s.jobs || jobs == s.jobs[..j] + s.jobs[j + 1..]
    ensures Accounted(s.(rows := Settle(s.rows, s.jobs[j], outcome), jobs := jobs))
  {
    var event, rows := s.jobs[j], Settle(s.rows, s.jobs[j], outcome);
    var r := s.(rows := rows, jobs := jobs);
    assert forall i :: 0 <= i < |rows| ==> rows[i].event == s.rows[i].event;
    forall other | other in r.enqueued
      ensures HasRow(rows, other) && (other in jobs || HasSettled(rows, other))
    {
      var i :| 0 <= i < |s.rows| && s.rows[i].event == other;
      assert rows[i].event == other;
      if other != event {
        if HasSettled(s.rows, other) {
          var k :| 0 <= k < |s.rows| && s.rows[k].event == other && s.rows[k].status != Pending;
          assert rows[k].event == other;
        } else {
          var k :| 0 <= k < |s.jobs| && s.jobs[k] == other;
          assert other == if k < j then s.jobs[..j][k] else s.jobs[j + 1..][k - j - 1];
        }
      }
    }
    forall other | HasRow(rows, other) && other !in r.enqueued ensures Owed(r, other) {
      var i :| 0 <= i < |rows| && rows[i].event == other;
      assert HasRow(s.rows, other);
      var d :| 0 <= d < |s.deliveries| && Owes(s.deliveries[d], other);
      assert Owes(r.deliveries[d], other);
    }
  }

  lemma StepAccounts(q: bool, s: State, step: Step)
    requires Inv(q, s) && Accounted(s) && Enabled(s, step)
    ensures Accounted(Apply(q, s, step))
  {
    hide Accounted;
    match step
    case Deliver(event) => DeliverAccounts(s, event);
    case Verify(d, _) => MoveAccounts(s, d, Apply(q, s, step).deliveries[d].phase);
    case TryInsert(d, raises) =>
      if raises.None? && !HasRow(s.rows, s.deliveries[d].event) {
        InsertAccounts(s, d);
      } else {
        MoveAccounts(s, d, Apply(q, s, step).deliveries[d].phase);
      }
    case ReadStatus(d) => MoveAccounts(s, d, Apply(q, s, step).deliveries[d].phase);
    case Enqueue(d, fails) =>
      if fails {
        MoveAccounts(s, d, Replied(ServerError));
      } else {
        var event := s.deliveries[d].event;
        assert Justified(s, s.deliveries[d]);
        EnqueueAccounts(s, event);
        MoveAccounts(s.(jobs := Add(s.jobs, event), enqueued := s.enqueued + {event}), d, Added);
      }
    case Respond(d) => MoveAccounts(s, d, Replied(Ack));
    case Crash(d) => MoveAccounts(s, d, Crashed);
    case Work(j, outcome, forget) =>
      WorkAccounts(s, j, outcome, if forget then s.jobs[..j] + s.jobs[j + 1..] else s.jobs);
  }

  lemma {:induction false} RunAccounts(q: bool, trace: seq<State>, i: nat)
    requires Run(q, trace) && i < |trace|
    ensures Accounted(trace[i])
  {
    hide Inv, Apply;
    if i > 0 {
      RunAccounts(q, trace, i - 1);
      RunKeeps(q, trace, i - 1);
      assert Next(q, trace[i - 1], trace[i - 1 + 1]);
      var step :| Enabled(trace[i - 1], step) && trace[i] == Apply(q, trace[i - 1], step);
      StepAccounts(q, trace[i - 1], step);
    } else {
      assert trace[0] == EMPTY;
    }
  }

  // ----- what follows for every interleaving -----

  /**
   * In every interleaving of deliveries, worker steps and crashes: an acknowledged event has a row,
   * one row and at most one job at a time, and it has been enqueued, unless it was acknowledged by the
   * catch of a thrown unique violation.
   */
  lemma AcknowledgedMeansEnqueued(q: bool, trace: seq<State>, i: nat, d: nat)
    requires Run(q, trace) && i < |trace| && d < |trace[i].deliveries|
    requires trace[i].deliveries[d].phase in {Replied(Ack), Replied(AckByCatch)}
    ensures var s, event := trace[i], trace[i].deliveries[d].event;
            && HasRow(s.rows, event) && OneRowEach(s.rows) && OneJobEach(s.jobs)
            && (s.deliveries[d].phase == Replied(Ack) ==> event in s.enqueued)
  {
    RunKeeps(q, trace, i);
    assert Justified(trace[i], trace[i].deliveries[d]);
  }

  /** Any event, however acknowledged, has been enqueued if and only if its job is queued or its row is no longer pending. */
  lemma EnqueuedExactlyWhenItShows(q: bool, trace: seq<State>, i: nat, event: int)
    requires Run(q, trace) && i < |trace|
    ensures var s := trace[i];
            event in s.enqueued <==> event in s.jobs || StatusOf(s.rows, event) !in {None, Some(Pending)}
  {
    RunKeeps(q, trace, i);
    RunAccounts(q, trace, i);
    var s := trace[i];
    StatusIsOfARow(s.rows, event);
    if HasSettled(s.rows, event) {
      var k :| 0 <= k < |s.rows| && s.rows[k].event == event && s.rows[k].status != Pending;
      var j :| 0 <= j < |s.rows| && s.rows[j].event == event && s.rows[j].status == StatusOf(s.rows, event).value;
      assert j == k;
    }
  }

  /** An event stored but never enqueued is pending, and a delivery of it has its enqueueing ahead, failed or crashed. */
  lemma OrphanIsOwed(q: bool, trace: seq<State>, i: nat, event: int)
    requires Run(q, trace) && i < |trace| && event !in trace[i].enqueued && HasRow(trace[i].rows, event)
    ensures StatusOf(trace[i].rows, event) == Some(Pending) && Owed(trace[i], event)
  {
    EnqueuedExactlyWhenItShows(q, trace, i, event);
    RunAccounts(q, trace, i);
    StatusIsOfARow(trace[i].rows, event);
  }

  /** An event never enqueued is pending if stored, and was acknowledged by the catch alone, if at all. */
  lemma OrphanWasNotAcknowledged(q: bool, trace: seq<State>, i: nat, event: int, d: nat)
    requires Run(q, trace) && i < |trace| && d < |trace[i].deliveries|
    requires event !in trace[i].enqueued && trace[i].deliveries[d].event == event
    ensures trace[i].deliveries[d].phase != Replied(Ack)
    ensures StatusOf(trace[i].rows, event) in {None, Some(Pending)}
    ensures trace[i].deliveries[d].phase == Replied(AckByCatch) ==> HasRow(trace[i].rows, event) && Owed(trace[i], event)
  {
    RunKeeps(q, trace, i);
    RunAccounts(q, trace, i);
    assert Justified(trace[i], trace[i].deliveries[d]);
    EnqueuedExactlyWhenItShows(q, trace, i, event);
  }

  /** Without a queue nothing is ever inserted, so no orphan row is left behind. */
  lemma NoQueueNoRow(trace: seq<State>, i: nat)
    requires Run(false, trace) && i < |trace|
    ensures trace[i].rows == [] && trace[i].jobs == []
    ensures forall d :: 0 <= d < |trace[i].deliveries| ==>
              trace[i].deliveries[d].phase in {Arrived, Crashed, Replied(BadRequest), Replied(Unavailable)}
  {
    if i > 0 {
      NoQueueNoRow(trace, i - 1);
      assert Next(false, trace[i - 1], trace[i - 1 + 1]);
    }
  }

  /** The steps of one genuine delivery that nothing interrupts, given how its insert and its enqueueing go. */
  function HandleAlone(s: State, event: int, raises: Option<bool>, fails: bool): State
    requires raises == Some(true) ==> HasRow(s.rows, event)
  {
    var d := |s.deliveries|;
    var s1 := Apply(true, s, Deliver(event));
    var s2 := Apply(true, s1, Verify(d, true));
    var s3 := Apply(true, s2, TryInsert(d, raises));
    var s4 := if s3.deliveries[d].phase == Conflicted then Apply(true, s3, ReadStatus(d)) else s3;
    if s4.deliveries[d].phase != MustEnqueue then s4
    else if fails then Apply(true, s4, Enqueue(d, true))
    else Apply(true, Apply(true, s4, Enqueue(d, false)), Respond(d))
  }

  /** Delivering an orphan again heals it: the event is enqueued and acknowledged, in the one row it has. */
  lemma RedeliveryHeals(trace: seq<State>, i: nat, event: int)
    requires Run(true, trace) && i < |trace| && StatusOf(trace[i].rows, event) == Some(Pending)
    ensures var r := HandleAlone(trace[i], event, None, false);
            && r.rows == trace[i].rows && event in r.jobs && event in r.enqueued
            && r.deliveries == trace[i].deliveries + [Delivery(event, Replied(Ack))]
  {
    StatusIsOfARow(trace[i].rows, event);
  }

  /**
   * The catch relies on a peer that may be gone: a first delivery inserts the row and crashes before
   * it enqueues, and the second one is acknowledged although nothing will ever process the event.
   */
  lemma CatchAcknowledgesOrphan(event: int) returns (trace: seq<State>)
    ensures Run(true, trace)
    ensures var s := trace[|trace| - 1];
            && s.deliveries == [Delivery(event, Crashed), Delivery(event, Replied(AckByCatch))]
            && s.rows == [Row(event, Pending)] && s.jobs == [] && event !in s.enqueued
  {
    trace := BothAccepted(event);
    trace := Extended(true, trace, TryInsert(0, None));
    trace := Extended(true, trace, Crash(0));
    assert trace[|trace| - 1].rows[0].event == event;
    trace := Extended(true, trace, TryInsert(1, Some(true)));
  }

  lemma BothAccepted(event: int) returns (trace: seq<State>)
    ensures Run(true, trace)
    ensures trace[|trace| - 1] == EMPTY.(deliveries := [Delivery(event, Accepted), Delivery(event, Accepted)])
  {
    trace := Extended(true, [EMPTY], Deliver(event));
    trace := Extended(true, trace, Verify(0, true));
    trace := Extended(true, trace, Deliver(event));
    trace := Extended(true, trace, Verify(1, true));
  }

  lemma Extended(q: bool, trace: seq<State>, step: Step) returns (longer: seq<State>)
    requires Run(q, trace) && Enabled(trace[|trace| - 1], step)
    ensures Run(q, longer) && longer == trace + [Apply(q, trace[|trace| - 1], step)]
  {
    longer := trace + [Apply(q, trace[|trace| - 1], step)];
    forall i | 0 <= i < |longer| - 1 ensures Next(q, longer[i], longer[i + 1]) {
      assert i < |trace| - 1 ==> Next(q, trace[i], trace[i + 1]);
    }
  }
}
