/** What becomes of each delivery, told from the row that its event has. */
module BillingOutcomes {
  import opened Wrappers
  import opened BillingWebhook

  /** One more delivery of the event, with this reply. */
  ghost predicate Answers(s: State, r: State, event: int, reply: Reply) {
    r.deliveries == s.deliveries + [Delivery(event, Replied(reply))]
  }

  ghost predicate SameTables(s: State, r: State) {
    r.rows == s.rows && r.jobs == s.jobs && r.enqueued == s.enqueued
  }

  lemma StatusOfRow(rows: seq<Row>, k: nat)
    requires OneRowEach(rows) && k < |rows|
    ensures StatusOf(rows, rows[k].event) == Some(rows[k].status)
  {
    StatusIsOfARow(rows, rows[k].event);
    assert HasRow(rows, rows[k].event);
  }

  /** A delivery that is not genuine, or that finds no queue, is turned away and changes nothing. */
  lemma TurnedAway(s: State, event: int, genuine: bool, queueConfigured: bool)
    requires !genuine || !queueConfigured
    ensures var d, arrived := |s.deliveries|, Apply(queueConfigured, s, Deliver(event));
            && Enabled(arrived, Verify(d, genuine))
            && var r := Apply(queueConfigured, arrived, Verify(d, genuine));
               SameTables(s, r) && Answers(s, r, event, if genuine then Unavailable else BadRequest)
  {
  }

  /** In every run: a first delivery stores one pending row, adds its job and is acknowledged, unless the queue throws. */
  lemma FirstDelivery(trace: seq<State>, i: nat, event: int, fails: bool)
    requires Run(true, trace) && i < |trace| && forall k :: 0 <= k < |trace[i].rows| ==> trace[i].rows[k].event != event
    ensures var s, r := trace[i], HandleAlone(trace[i], event, None, fails);
            && r.rows == s.rows + [Row(event, Pending)]
            && (fails ==> r.jobs == s.jobs && r.enqueued == s.enqueued && Answers(s, r, event, ServerError))
            && (!fails ==> r.jobs == s.jobs + [event] && r.enqueued == s.enqueued + {event} && Answers(s, r, event, Ack))
  {
    RunKeeps(true, trace, i);
    RunAccounts(true, trace, i);
    assert event !in trace[i].jobs;
    hide Inv, Accounted;
  }

  /** A redelivery of a pending event stores nothing, makes sure of its job and is acknowledged, unless the queue throws. */
  lemma PendingRedelivery(trace: seq<State>, i: nat, k: nat, fails: bool)
    requires Run(true, trace) && i < |trace| && k < |trace[i].rows| && trace[i].rows[k].status == Pending
    ensures var s, event := trace[i], trace[i].rows[k].event;
            var r := HandleAlone(s, event, None, fails);
            && r.rows == s.rows
            && (fails ==> SameTables(s, r) && Answers(s, r, event, ServerError))
            && (!fails ==> r.jobs == (if event in s.jobs then s.jobs else s.jobs + [event])
                           && r.enqueued == s.enqueued + {event} && Answers(s, r, event, Ack))
  {
    RunKeeps(true, trace, i);
    StatusOfRow(trace[i].rows, k);
    hide Inv, StatusOf;
    assert HasRow(trace[i].rows, trace[i].rows[k].event);
  }

  /** A redelivery of a settled event is acknowledged and changes nothing, whatever the queue would do. */
  lemma SettledRedelivery(trace: seq<State>, i: nat, k: nat, fails: bool)
    requires Run(true, trace) && i < |trace| && k < |trace[i].rows| && trace[i].rows[k].status != Pending
    ensures var s, event := trace[i], trace[i].rows[k].event;
            var r := HandleAlone(s, event, None, fails);
            SameTables(s, r) && Answers(s, r, event, Ack)
  {
    RunKeeps(true, trace, i);
    StatusOfRow(trace[i].rows, k);
    hide Inv, StatusOf;
    assert HasRow(trace[i].rows, trace[i].rows[k].event);
  }

  /** A delivery whose insert throws changes nothing: a unique violation is acknowledged, anything else is an error. */
  lemma ThrowingDelivery(s: State, event: int, unique: bool, fails: bool)
    requires unique ==> HasRow(s.rows, event)
    ensures var r := HandleAlone(s, event, Some(unique), fails);
            SameTables(s, r) && Answers(s, r, event, if unique then AckByCatch else ServerError)
  {
  }

  // ----- over whole runs -----

  /** Phases from which the job is added without looking at the row again. */
  predicate Enqueues(phase: Phase) {
    phase in {MustEnqueue, Added}
  }

  lemma SettledStays(s: State, step: Step, event: int)
    requires Enabled(s, step) && HasSettled(s.rows, event)
    ensures HasSettled(Apply(true, s, step).rows, event)
  {
    var k :| 0 <= k < |s.rows| && s.rows[k].event == event && s.rows[k].status != Pending;
    var r := Apply(true, s, step);
    assert 0 <= k < |r.rows| && r.rows[k].event == event && r.rows[k].status != Pending;
  }

  /** What one step can do to one delivery. */
  lemma StepMoves(s: State, step: Step, d: nat)
    requires Inv(true, s) && Enabled(s, step) && d < |Apply(true, s, step).deliveries|
    ensures var r := Apply(true, s, step);
            if d < |s.deliveries| then
              && r.deliveries[d].event == s.deliveries[d].event
              && (Enqueues(r.deliveries[d].phase) && !Enqueues(s.deliveries[d].phase) ==>
                    !HasSettled(s.rows, s.deliveries[d].event) && r.deliveries[d].phase == MustEnqueue)
            else r.deliveries[d].phase == Arrived
  {
    if d < |s.deliveries| && HasSettled(s.rows, s.deliveries[d].event) {
      var k :| 0 <= k < |s.rows| && s.rows[k].event == s.deliveries[d].event && s.rows[k].status != Pending;
      StatusOfRow(s.rows, k);
      assert HasRow(s.rows, s.deliveries[d].event);
    }
    hide StatusOf, Inv;
  }

  /** No delivery that has not passed the row check by the time its event is settled will ever add a job. */
  lemma {:induction false} SettledIsNotEnqueuedAgain(trace: seq<State>, i: nat, j: nat, event: int, d: nat)
    requires Run(true, trace) && i <= j < |trace| && HasSettled(trace[i].rows, event)
    requires d < |trace[j].deliveries| && trace[j].deliveries[d].event == event
    requires d < |trace[i].deliveries| ==> !Enqueues(trace[i].deliveries[d].phase)
    ensures HasSettled(trace[j].rows, event) && !Enqueues(trace[j].deliveries[d].phase)
    decreases j
  {
    hide Inv, Apply, Enqueues, HasSettled;
    if i < j {
      assert Next(true, trace[j - 1], trace[j - 1 + 1]);
      var step :| Enabled(trace[j - 1], step) && trace[j] == Apply(true, trace[j - 1], step);
      RunKeeps(true, trace, j - 1);
      SettledAtLast(trace, i, j - 1, event);
      SettledStays(trace[j - 1], step, event);
      StepMoves(trace[j - 1], step, d);
      if d < |trace[j - 1].deliveries| {
        SettledIsNotEnqueuedAgain(trace, i, j - 1, event, d);
      } else {
        ArrivedEnqueuesNothing();
      }
    }
  }

  lemma ArrivedEnqueuesNothing()
    ensures !Enqueues(Arrived)
  {
  }

  lemma {:induction false} SettledAtLast(trace: seq<State>, i: nat, j: nat, event: int)
    requires Run(true, trace) && i <= j < |trace| && HasSettled(trace[i].rows, event)
    ensures HasSettled(trace[j].rows, event)
    decreases j
  {
    hide Apply, HasSettled;
    if i < j {
      SettledAtLast(trace, i, j - 1, event);
      assert Next(true, trace[j - 1], trace[j - 1 + 1]);
      var step :| Enabled(trace[j - 1], step) && trace[j] == Apply(true, trace[j - 1], step);
      SettledStays(trace[j - 1], step, event);
    }
  }

  /** A job appears only when a delivery that must enqueue its event does so. */
  lemma JobsComeFromEnqueueing(s: State, step: Step, event: int)
    requires Enabled(s, step)
    ensures var r := Apply(true, s, step);
            event in r.jobs && event !in s.jobs ==>
              && step.Enqueue? && !step.fails && s.deliveries[step.d] == Delivery(event, MustEnqueue)
              && r.jobs == s.jobs + [event]
  {
  }

  /** From a conflict a delivery goes on to enqueue or to its end, and never back. */
  lemma ConflictGoesOn(s: State, step: Step, d: nat)
    requires Enabled(s, step) && d < |s.deliveries| && s.deliveries[d].phase !in {Arrived, Accepted}
    ensures var r := Apply(true, s, step);
            && d < |r.deliveries| && r.deliveries[d].phase !in {Arrived, Accepted}
            && (Enqueues(r.deliveries[d].phase) && !Enqueues(s.deliveries[d].phase) ==>
                  && s.deliveries[d].phase == Conflicted && r.deliveries[d].phase == MustEnqueue
                  && StatusOf(s.rows, s.deliveries[d].event) == Some(Pending))
  {
    hide StatusOf;
  }

  lemma {:induction false} PastTheInsert(trace: seq<State>, i: nat, j: nat, d: nat)
    requires Run(true, trace) && i <= j < |trace| && d < |trace[i].deliveries|
    requires trace[i].deliveries[d].phase !in {Arrived, Accepted}
    ensures d < |trace[j].deliveries| && trace[j].deliveries[d].phase !in {Arrived, Accepted}
    decreases j
  {
    hide Apply, StatusOf;
    if i < j {
      PastTheInsert(trace, i, j - 1, d);
      assert Next(true, trace[j - 1], trace[j - 1 + 1]);
      var step :| Enabled(trace[j - 1], step) && trace[j] == Apply(true, trace[j - 1], step);
      ConflictGoesOn(trace[j - 1], step, d);
    }
  }

  /** A delivery that met a conflict comes to enqueue only at a step at which its event's row was pending. */
  lemma {:induction false} ConflictEnqueuesOnlyPending(trace: seq<State>, i: nat, j: nat, d: nat) returns (m: nat)
    requires Run(true, trace) && i <= j < |trace| && d < |trace[i].deliveries| && d < |trace[j].deliveries|
    requires trace[i].deliveries[d].phase == Conflicted && Enqueues(trace[j].deliveries[d].phase)
    ensures i <= m < j && d < |trace[m].deliveries| && d < |trace[m + 1].deliveries|
    ensures trace[m].deliveries[d].phase == Conflicted && trace[m + 1].deliveries[d].phase == MustEnqueue
    ensures StatusOf(trace[m].rows, trace[m].deliveries[d].event) == Some(Pending)
    decreases j
  {
    hide StatusOf, Apply;
    assert Next(true, trace[j - 1], trace[j - 1 + 1]);
    var step :| Enabled(trace[j - 1], step) && trace[j] == Apply(true, trace[j - 1], step);
    PastTheInsert(trace, i, j - 1, d);
    ConflictGoesOn(trace[j - 1], step, d);
    if Enqueues(trace[j - 1].deliveries[d].phase) {
      m := ConflictEnqueuesOnlyPending(trace, i, j - 1, d);
    } else {
      m := j - 1;
    }
  }
}
