/** Any sequence of registrations and removals on the wrapped bus, and what an emit then calls. */
module EventBusRuns {
  import opened EventBus

  datatype Op = Register(event: string, handler: nat) | Unregister(event: string, handler: nat)

  function Do(s: State, op: Op): State {
    match op
    case Register(event, h) => On(s, event, h)
    case Unregister(event, h) => Off(s, event, h)
  }

  function After(ops: seq<Op>): State {
    if ops == [] then EMPTY else Do(After(ops[..|ops| - 1]), ops[|ops| - 1])
  }

  /** The handlers that should be called: registered and not removed, in registration order. */
  function Expected(ops: seq<Op>, event: string): seq<nat> {
    if ops == [] then []
    else
      var before, op := Expected(ops[..|ops| - 1], event), ops[|ops| - 1];
      if op.event != event then before
      else if op.Register? then before + [op.handler]
      else Removed(before, op.handler)
  }

  /** No handler is registered for an event while it is registered for that event. */
  ghost predicate NoDuplicates(ops: seq<Op>) {
    forall i :: 0 <= i < |ops| ==> ops[i].Register? ==> ops[i].handler !in Expected(ops[..i], ops[i].event)
  }

  lemma NoDuplicatesBefore(ops: seq<Op>)
    requires NoDuplicates(ops) && ops != []
    ensures NoDuplicates(ops[..|ops| - 1])
  {
    var before := ops[..|ops| - 1];
    forall i | 0 <= i < |before| ensures before[..i] == ops[..i] && before[i] == ops[i] {}
  }

  /** After any such sequence the emitter and both maps hold exactly the handlers expected. */
  lemma {:induction false} BusHoldsExpected(ops: seq<Op>)
    requires NoDuplicates(ops)
    ensures Inv(After(ops))
    ensures forall event :: HandlersAt(After(ops), event) == Expected(ops, event)
  {
    hide Inv, On, Off;
    if ops == [] {
      EmptyHolds();
    } else {
      NoDuplicatesBefore(ops);
      BusHoldsExpected(ops[..|ops| - 1]);
      var s, op := After(ops[..|ops| - 1]), ops[|ops| - 1];
      if op.Register? {
        OnAppends(s, op.event, op.handler);
      } else {
        OffRemoves(s, op.event, op.handler);
      }
    }
  }

  lemma EmptyHolds()
    ensures Inv(EMPTY) && forall event :: HandlersAt(EMPTY, event) == []
  {
  }

  /**
   * An emit calls exactly the handlers registered and not removed, once each, in registration order,
   * and completes, whichever handlers throw.
   */
  lemma EmitCallsExpected(ops: seq<Op>, event: string, throws: nat -> bool)
    requires NoDuplicates(ops)
    ensures Emit(ListenersOf(After(ops), event), throws) == Fired(Expected(ops, event), false)
  {
    BusHoldsExpected(ops);
    var list := ListenersOf(After(ops), event);
    assert AgreeAt(After(ops), event);
    assert forall i :: 0 <= i < |list| ==> Mapped(list[i], PerEvent(After(ops).wrappers, event), PerEvent(After(ops).wrapperMap, event));
    EmitCallsAll(list, throws);
    assert HandlersAt(After(ops), event) == Expected(ops, event);
  }

  // ----- what "registered and not removed, in registration order" means -----

  /** Where `h` was last registered for the event; -1 if never. */
  function LastRegistered(ops: seq<Op>, event: string, h: nat): int {
    if ops == [] then -1
    else if ops[|ops| - 1] == Register(event, h) then |ops| - 1
    else LastRegistered(ops[..|ops| - 1], event, h)
  }

  lemma {:induction false} RemovedHas(handlers: seq<nat>, h: nat, x: nat)
    ensures x in Removed(handlers, h) <==> x in handlers && x != h
  {
    if handlers != [] {
      RemovedHas(handlers[..|handlers| - 1], h, x);
      assert handlers == handlers[..|handlers| - 1] + [handlers[|handlers| - 1]];
    }
  }

  ghost predicate InOrder(ops: seq<Op>, event: string, handlers: seq<nat>) {
    && (forall a :: 0 <= a < |handlers| ==> 0 <= LastRegistered(ops, event, handlers[a]) < |ops|)
    && (forall a, b :: 0 <= a < b < |handlers| ==>
          LastRegistered(ops, event, handlers[a]) < LastRegistered(ops, event, handlers[b]))
  }

  lemma {:induction false} RemovedInOrder(ops: seq<Op>, event: string, handlers: seq<nat>, h: nat)
    requires InOrder(ops, event, handlers)
    ensures InOrder(ops, event, Removed(handlers, h))
    ensures forall x :: x in Removed(handlers, h) ==> x in handlers
  {
    if handlers != [] {
      var n := |handlers| - 1;
      RemovedInOrder(ops, event, handlers[..n], h);
      var kept := Removed(handlers[..n], h);
      forall a | 0 <= a < |kept| ensures LastRegistered(ops, event, kept[a]) < LastRegistered(ops, event, handlers[n]) {
        assert kept[a] in handlers[..n];
        var i :| 0 <= i < n && handlers[i] == kept[a];
      }
    }
  }

  /** The expected handlers are ordered by their latest registration. */
  lemma {:induction false} ExpectedIsInOrder(ops: seq<Op>, event: string)
    requires NoDuplicates(ops)
    ensures InOrder(ops, event, Expected(ops, event))
  {
    if ops != [] {
      var n := |ops| - 1;
      NoDuplicatesBefore(ops);
      ExpectedIsInOrder(ops[..n], event);
      var before, op := Expected(ops[..n], event), ops[n];
      if op.event == event && op.Unregister? {
        RemovedInOrder(ops[..n], event, before, op.handler);
      }
      var now := Expected(ops, event);
      forall a | 0 <= a < |now| && now[a] in before
        ensures LastRegistered(ops, event, now[a]) == LastRegistered(ops[..n], event, now[a])
      {
      }
      forall a | 0 <= a < |before| ensures before[a] in before {}
    }
  }

  /** Some registration of the handler was not followed by its removal. */
  ghost predicate Registered(ops: seq<Op>, event: string, h: nat) {
    exists i :: RegisteredAt(ops, event, h, i)
  }

  ghost predicate RegisteredAt(ops: seq<Op>, event: string, h: nat, i: nat) {
    && i < |ops| && ops[i] == Register(event, h)
    && forall j :: i < j < |ops| ==> ops[j] != Unregister(event, h)
  }

  lemma RegisteredOneMore(ops: seq<Op>, event: string, h: nat)
    requires ops != []
    ensures var before, op := ops[..|ops| - 1], ops[|ops| - 1];
            Registered(ops, event, h) <==>
            op == Register(event, h) || (Registered(before, event, h) && op != Unregister(event, h))
  {
    var n := |ops| - 1;
    if ops[n] == Register(event, h) {
      assert RegisteredAt(ops, event, h, n);
    } else if Registered(ops, event, h) {
      var i: nat :| RegisteredAt(ops, event, h, i);
      assert RegisteredAt(ops[..n], event, h, i);
    } else if Registered(ops[..n], event, h) {
      var i: nat :| RegisteredAt(ops[..n], event, h, i);
      assert ops[n] != Unregister(event, h) ==> RegisteredAt(ops, event, h, i);
    }
  }

  /** A handler is expected if and only if some registration of it was not followed by its removal. */
  lemma {:induction false} ExpectedMeansRegistered(ops: seq<Op>, event: string, h: nat)
    ensures h in Expected(ops, event) <==> Registered(ops, event, h)
  {
    if ops != [] {
      hide Registered;
      var n := |ops| - 1;
      ExpectedMeansRegistered(ops[..n], event, h);
      RegisteredOneMore(ops, event, h);
      RemovedHas(Expected(ops[..n], event), ops[n].handler, h);
    }
  }
}
