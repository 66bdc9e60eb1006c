/** The webhook handler as one piece of code, when nothing interrupts it between its awaits. */
module BillingHandler {
  import opened Wrappers
  import opened BillingWebhook

  class WebhookRoutes {
    const redisUrl: bool          // whether REDIS_URL is set
    var webhookQueue: bool        // whether the queue has been created yet
    var rows: seq<Row>
    var jobs: seq<int>
    ghost var enqueued: set<int>

    constructor (redisUrl: bool)
      ensures this.redisUrl == redisUrl && !webhookQueue && rows == [] && jobs == [] && enqueued == {}
    {
      this.redisUrl, webhookQueue, rows, jobs, enqueued := redisUrl, false, [], [], {};
    }

    /** The queue, created on first use; none without a Redis URL. */
    method GetWebhookQueue() returns (available: bool)
      requires webhookQueue ==> redisUrl
      modifies `webhookQueue
      ensures available == redisUrl && webhookQueue == redisUrl
    {
      if !webhookQueue && redisUrl {
        webhookQueue := true;
      }
      available := webhookQueue;
    }

    /** `queue.add` may throw; then nothing was added. */
    method EnqueueWebhook(event: int, fails: bool) returns (ok: bool)
      modifies `jobs, `enqueued
      ensures ok == !fails
      ensures ok ==> jobs == Add(old(jobs), event) && enqueued == old(enqueued) + {event}
      ensures !ok ==> jobs == old(jobs) && enqueued == old(enqueued)
    {
      if fails {
        return false;
      }
      if event !in jobs {
        jobs := jobs + [event];
      }
      enqueued := enqueued + {event};
      ok := true;
    }

    /** `onConflictDoNothing ... returning`: the number of rows returned. */
    method InsertPending(event: int) returns (inserted: nat)
      modifies `rows
      ensures rows == Insert(old(rows), event) && (inserted == 0 <==> HasRow(old(rows), event))
    {
      for i := 0 to |rows|
        invariant rows == old(rows) && forall j :: 0 <= j < i ==> rows[j].event != event
      {
        if rows[i].event == event {
          return 0;
        }
      }
      rows := rows + [Row(event, Pending)];
      inserted := 1;
    }

    /**
     * The handler: its effect is that of one delivery running all its steps in a row. `raises` is what the
     * insert throws, if anything: a unique violation (true) or another error; `fails` is whether the queue throws.
     */
    method Handle(event: int, genuine: bool, raises: Option<bool>, fails: bool) returns (reply: Reply)
      requires webhookQueue ==> redisUrl
      requires raises == Some(true) ==> HasRow(rows, event)
      modifies this
      ensures webhookQueue ==> redisUrl
      ensures !genuine ==> reply == BadRequest && rows == old(rows) && jobs == old(jobs)
      ensures genuine && !redisUrl ==> reply == Unavailable && rows == old(rows) && jobs == old(jobs)
      ensures genuine && redisUrl ==>
                State(rows, jobs, [Delivery(event, Replied(reply))], enqueued)
                == HandleAlone(State(old(rows), old(jobs), [], old(enqueued)), event, raises, fails)
      ensures genuine && redisUrl && raises.Some? ==>
                reply == (if raises.value then AckByCatch else ServerError) && rows == old(rows) && jobs == old(jobs)
      ensures genuine && redisUrl && raises.None? ==>
                match StatusOf(old(rows), event)
                case None =>
                  && rows == old(rows) + [Row(event, Pending)]
                  && (if fails then reply == ServerError && jobs == old(jobs)
                      else reply == Ack && jobs == (if event in old(jobs) then old(jobs) else old(jobs) + [event]))
                case Some(Pending) =>
                  && rows == old(rows)
                  && (if fails then reply == ServerError && jobs == old(jobs)
                      else reply == Ack && jobs == (if event in old(jobs) then old(jobs) else old(jobs) + [event]))
                case Some(Done(_)) => reply == Ack && rows == old(rows) && jobs == old(jobs)
    {
      if !genuine {
        return BadRequest;
      }
      var queue := GetWebhookQueue();
      if !queue {
        return Unavailable;
      }
      if raises.Some? {
        return if raises.value then AckByCatch else ServerError;
      }
      StatusIsOfARow(rows, event);
      var inserted := InsertPending(event);
      if inserted == 0 {
        var existing := StatusOf(rows, event);
        if existing == Some(Pending) {
          var ok := EnqueueWebhook(event, fails);
          return if ok then Ack else ServerError;
        }
        return Ack;
      }
      var ok := EnqueueWebhook(event, fails);
      reply := if ok then Ack else ServerError;
    }
  }
}
