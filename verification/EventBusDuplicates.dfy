/** Sequences in which a handler may be registered while it is registered: what is left of it. */
module EventBusDuplicates {
  import opened EventBus
  import opened EventBusRuns

  function Times(handlers: seq<nat>, h: nat): nat {
    multiset(handlers)[h]
  }

  /** How often `h` was registered for the event while it was registered for that event. */
  function Dups(ops: seq<Op>, event: string, h: nat): nat {
    if ops == [] then 0
    else
      var before := ops[..|ops| - 1];
      Dups(before, event, h) + if ops[|ops| - 1] == Register(event, h) && h in Expected(before, event) then 1 else 0
  }

  // ----- what holds even with duplicates -----

  /** A listener that the typed bus still finds, made before the given serial number and index. */
  ghost predicate Own(l: Listener, wrappers: map<Listener, Listener>, serial: nat, index: nat) {
    && l.Guarded? && l.inner.Span? && l.serial < serial && l.inner.index < index
    && l.inner in wrappers && wrappers[l.inner] == l
  }

  /** Listeners made by the tracing wrapper, the first before the second. */
  predicate Older(a: Listener, b: Listener) {
    a.Guarded? && a.inner.Span? && b.Guarded? && b.inner.Span? && a.inner.index < b.inner.index
  }

  /** No listener of the same handler is younger than the one the wrapper still finds. */
  ghost predicate NoneYounger(l: Listener, wrapperMap: map<nat, Listener>) {
    && l.Guarded? && l.inner.Span?
    && (l.inner.handler in wrapperMap ==>
          wrapperMap[l.inner.handler].Span? && l.inner.index <= wrapperMap[l.inner.handler].index)
  }

  /** The tracing wrapper may have lost listeners; those it has are in the typed bus and the emitter. */
  ghost predicate Loose(list: seq<Listener>, wrappers: map<Listener, Listener>, wrapperMap: map<nat, Listener>,
                        serial: nat, index: nat) {
    && (forall i :: 0 <= i < |list| ==> Own(list[i], wrappers, serial, index))
    && (forall i, j :: 0 <= i < j < |list| ==> Older(list[i], list[j]))
    && (forall i :: 0 <= i < |list| ==> NoneYounger(list[i], wrapperMap))
    && (forall k :: k in wrappers ==> wrappers[k] in list && wrappers[k].Guarded? && wrappers[k].inner == k && k.Span?)
    && (forall h :: h in wrapperMap ==> wrapperMap[h] in wrappers && wrapperMap[h].Span? && wrapperMap[h].handler == h)
  }

  ghost predicate LooseAt(s: State, event: string) {
    Loose(ListenersOf(s, event), PerEvent(s.wrappers, event), PerEvent(s.wrapperMap, event), s.serial, s.index)
  }

  ghost predicate LooseInv(s: State) {
    (forall event :: LooseAt(s, event)) && NoneEmpty(s.wrappers) && NoneEmpty(s.wrapperMap)
  }

  lemma LooseLater(list: seq<Listener>, wrappers: map<Listener, Listener>, wrapperMap: map<nat, Listener>,
                   serial: nat, index: nat, serial2: nat, index2: nat)
    requires Loose(list, wrappers, wrapperMap, serial, index) && serial <= serial2 && index <= index2
    ensures Loose(list, wrappers, wrapperMap, serial2, index2)
  {
    forall i | 0 <= i < |list| ensures Own(list[i], wrappers, serial2, index2) {
      assert Own(list[i], wrappers, serial, index);
    }
  }

  lemma LooseAfterOn(list: seq<Listener>, wrappers: map<Listener, Listener>, wrapperMap: map<nat, Listener>,
                     serial: nat, index: nat, h: nat)
    requires Loose(list, wrappers, wrapperMap, serial, index)
    ensures var l := Guarded(Span(h, index), serial);
            Loose(list + [l], wrappers[l.inner := l], wrapperMap[h := l.inner], serial + 1, index + 1)
  {
    var l := Guarded(Span(h, index), serial);
    forall i | 0 <= i < |list| ensures Own(list[i], wrappers[l.inner := l], serial + 1, index + 1) && list[i] != l {
      assert Own(list[i], wrappers, serial, index) && NoneYounger(list[i], wrapperMap);
    }
    assert forall k :: k in wrappers ==> wrappers[k] in list;
  }

  lemma LooseAfterOff(list: seq<Listener>, wrappers: map<Listener, Listener>, wrapperMap: map<nat, Listener>,
                      serial: nat, index: nat, h: nat, i: nat)
    requires Loose(list, wrappers, wrapperMap, serial, index) && h in wrapperMap
    requires i < |list| && list[i] == wrappers[wrapperMap[h]]
    ensures Loose(Without(list, i), wrappers - {wrapperMap[h]}, wrapperMap - {h}, serial, index)
  {
    var k, shorter := wrapperMap[h], Without(list, i);
    WithoutKeepsOthers(list, i);
    forall j | 0 <= j < |shorter| ensures Own(shorter[j], wrappers - {k}, serial, index) {
      var m := if j < i then j else j + 1;
      assert shorter[j] == list[m] && Own(list[m], wrappers, serial, index);
    }
  }

  // ----- one call -----

  lemma TimesAppended(handlers: seq<nat>, x: nat)
    ensures forall h :: Times(handlers + [x], h) == Times(handlers, h) + if h == x then 1 else 0
  {
  }

  lemma TimesWithout(handlers: seq<nat>, i: nat)
    requires i < |handlers|
    ensures forall h :: Times(handlers, h) == Times(Without(handlers, i), h) + if h == handlers[i] then 1 else 0
  {
    assert handlers == handlers[..i] + [handlers[i]] + handlers[i + 1..];
  }

  lemma LooseElsewhere(s: State, r: State, event: string)
    requires LooseInv(s) && LooseAt(r, event) && ChangedOnlyAt(s, r, event)
    requires s.serial <= r.serial && s.index <= r.index && NoneEmpty(r.wrappers) && NoneEmpty(r.wrapperMap)
    ensures LooseInv(r) && SameElsewhere(s, r, event)
  {
    hide Loose, ListenersOf, PerEvent, NoneEmpty;
    forall other ensures LooseAt(r, other) {
      if other != event {
        assert LooseAt(s, other);
        LooseLater(ListenersOf(s, other), PerEvent(s.wrappers, other), PerEvent(s.wrapperMap, other),
                   s.serial, s.index, r.serial, r.index);
      }
    }
  }

  lemma Serials(s: State, event: string, h: nat)
    ensures On(s, event, h).serial == s.serial + 1 && On(s, event, h).index == s.index + 1
    ensures Off(s, event, h).serial == s.serial && Off(s, event, h).index == s.index
  {
  }

  lemma HandlersAppended(list: seq<Listener>, l: Listener)
    requires l.Guarded? && l.inner.Span?
    ensures HandlersOf(list + [l]) == HandlersOf(list) + [l.inner.handler]
  {
    assert HandlerOf(l) == HandlerOf(l.inner) == l.inner.handler;
    hide HandlerOf;
  }

  lemma HandlersWithout(list: seq<Listener>, i: nat)
    requires i < |list|
    ensures HandlersOf(Without(list, i)) == Without(HandlersOf(list), i)
  {
    hide HandlerOf;
  }

  /** Registering always adds one listener, registered or not. */
  lemma OnAdds(s: State, event: string, h: nat)
    requires LooseInv(s)
    ensures var r := On(s, event, h);
            && LooseInv(r) && SameElsewhere(s, r, event) && ChangedOnlyAt(s, r, event)
            && HandlersAt(r, event) == HandlersAt(s, event) + [h]
            && PerEvent(r.wrapperMap, event).Keys == PerEvent(s.wrapperMap, event).Keys + {h}
  {
    var r, l := On(s, event, h), Guarded(Span(h, s.index), s.serial);
    assert LooseAt(s, event);
    OnShape(s, event, h);
    Serials(s, event, h);
    hide On, ListenersOf, PerEvent, NoneEmpty, ChangedOnlyAt;
    LooseAfterOn(ListenersOf(s, event), PerEvent(s.wrappers, event), PerEvent(s.wrapperMap, event), s.serial, s.index, h);
    hide Loose, HandlersOf;
    HandlersAppended(ListenersOf(s, event), l);
    LooseElsewhere(s, r, event);
  }

  /** Removing takes out the listener of the latest registration, if the wrapper still has one. */
  lemma OffTakesOne(s: State, event: string, h: nat)
    requires LooseInv(s)
    ensures var r := Off(s, event, h);
            && LooseInv(r) && SameElsewhere(s, r, event) && ChangedOnlyAt(s, r, event)
            && HandlersAt(r, event)
               == (if h in PerEvent(s.wrapperMap, event) then RemoveLast(HandlersAt(s, event), h) else HandlersAt(s, event))
            && (forall x :: Times(HandlersAt(s, event), x) == Times(HandlersAt(r, event), x)
                  + if x == h && h in PerEvent(s.wrapperMap, event) then 1 else 0)
            && PerEvent(r.wrapperMap, event).Keys == PerEvent(s.wrapperMap, event).Keys - {h}
  {
    if h in PerEvent(s.wrapperMap, event) {
      OffTakesRegistered(s, event, h);
    } else {
      OffTakesNothing(s, event, h);
    }
  }

  lemma ListenerOf(list: seq<Listener>, wrappers: map<Listener, Listener>, wrapperMap: map<nat, Listener>,
                   serial: nat, index: nat, h: nat) returns (i: nat)
    requires Loose(list, wrappers, wrapperMap, serial, index) && h in wrapperMap
    ensures i < |list| && wrapperMap[h] in wrappers && list[i] == wrappers[wrapperMap[h]] && HandlersOf(list)[i] == h
    ensures RemoveLast(list, list[i]) == Without(list, i)
    ensures HandlersOf(Without(list, i)) == Without(HandlersOf(list), i) == RemoveLast(HandlersOf(list), h)
  {
    var l := wrappers[wrapperMap[h]];
    i :| 0 <= i < |list| && list[i] == l;
    assert HandlerOf(l) == HandlerOf(l.inner) == h;
    forall j | i < j < |list| ensures list[j] != l && HandlersOf(list)[j] != h {
      assert Older(list[i], list[j]) && NoneYounger(list[j], wrapperMap);
      assert HandlerOf(list[j]) == HandlerOf(list[j].inner);
    }
    assert HandlersOf(list)[i] == HandlerOf(list[i]);
    HandlersWithout(list, i);
    RemoveLastAt(HandlersOf(list), h, i);
    hide HandlersOf, Own, HandlerOf;
    RemoveLastAt(list, l, i);
  }

  lemma OffTakesRegistered(s: State, event: string, h: nat)
    requires LooseInv(s) && h in PerEvent(s.wrapperMap, event)
    ensures var r := Off(s, event, h);
            && LooseInv(r) && SameElsewhere(s, r, event) && ChangedOnlyAt(s, r, event)
            && HandlersAt(r, event) == RemoveLast(HandlersAt(s, event), h)
            && (forall x :: Times(HandlersAt(s, event), x) == Times(HandlersAt(r, event), x) + if x == h then 1 else 0)
            && PerEvent(r.wrapperMap, event).Keys == PerEvent(s.wrapperMap, event).Keys - {h}
  {
    var r := Off(s, event, h);
    var list, ws, wm := ListenersOf(s, event), PerEvent(s.wrappers, event), PerEvent(s.wrapperMap, event);
    assert LooseAt(s, event);
    var i := ListenerOf(list, ws, wm, s.serial, s.index, h);
    assert wm[h] == s.wrapperMap[event][h] && ws == s.wrappers[event];
    OffShape(s, event, h);
    Serials(s, event, h);
    hide Off, ListenersOf, PerEvent, NoneEmpty, ChangedOnlyAt, RemoveLast;
    LooseAfterOff(list, ws, wm, s.serial, s.index, h, i);
    hide Loose, HandlersOf;
    LooseElsewhere(s, r, event);
    TimesWithout(HandlersOf(list), i);
  }

  lemma OffTakesNothing(s: State, event: string, h: nat)
    requires LooseInv(s) && h !in PerEvent(s.wrapperMap, event)
    ensures var r := Off(s, event, h);
            && LooseInv(r) && SameElsewhere(s, r, event) && ChangedOnlyAt(s, r, event)
            && HandlersAt(r, event) == HandlersAt(s, event)
            && PerEvent(r.wrapperMap, event) == PerEvent(s.wrapperMap, event)
  {
    var r, list := Off(s, event, h), ListenersOf(s, event);
    assert LooseAt(s, event);
    assert Raw(h) !in PerEvent(s.wrappers, event);
    assert Raw(h) !in list;
    OffAbsentShape(s, event, h);
    Serials(s, event, h);
    RemoveLastOfAbsent(list, Raw(h));
    hide Off, ListenersOf, PerEvent, NoneEmpty, ChangedOnlyAt, RemoveLast, Loose, HandlersOf;
    LooseElsewhere(s, r, event);
  }

  // ----- any sequence of calls -----

  /**
   * After any sequence whatever, the emitter holds one listener of a handler for each duplicate
   * registration it ever had, and one more if it is registered.
   */
  lemma {:induction false} ListenersAreCounted(ops: seq<Op>, event: string, h: nat)
    ensures LooseInv(After(ops))
    ensures h in PerEvent(After(ops).wrapperMap, event) <==> h in Expected(ops, event)
    ensures Times(HandlersAt(After(ops), event), h)
         == Dups(ops, event, h) + if h in Expected(ops, event) then 1 else 0
  {
    hide LooseInv, On, Off, Times, PerEvent, HandlersAt;
    if ops == [] {
      NothingHeld(event, h);
    } else {
      var n := |ops| - 1;
      var s, op := After(ops[..n]), ops[n];
      ListenersAreCounted(ops[..n], event, h);
      if op.Register? {
        OnAdds(s, op.event, op.handler);
        TimesAppended(HandlersAt(s, op.event), op.handler);
      } else {
        OffTakesOne(s, op.event, op.handler);
        RemovedHas(Expected(ops[..n], event), op.handler, h);
      }
    }
  }

  lemma NothingHeld(event: string, h: nat)
    ensures LooseInv(EMPTY) && h !in PerEvent(EMPTY.wrapperMap, event) && Times(HandlersAt(EMPTY, event), h) == 0
  {
  }

  lemma EmitCallsHeld(ops: seq<Op>, event: string, throws: nat -> bool)
    ensures Emit(ListenersOf(After(ops), event), throws) == Fired(HandlersAt(After(ops), event), false)
  {
    ListenersAreCounted(ops, event, 0);
    var s, list := After(ops), ListenersOf(After(ops), event);
    assert LooseAt(s, event);
    assert forall i :: 0 <= i < |list| ==> Own(list[i], PerEvent(s.wrappers, event), s.serial, s.index);
    EmitCallsAll(list, throws);
  }

  /** A handler is still called after its removal if and only if it was ever registered while it was registered. */
  lemma RemovalFailsExactlyAfterDuplicates(ops: seq<Op>, event: string, h: nat, throws: nat -> bool)
    ensures h in Emit(ListenersOf(After(ops + [Unregister(event, h)]), event), throws).called <==> Dups(ops, event, h) > 0
  {
    var all := ops + [Unregister(event, h)];
    assert all[..|all| - 1] == ops;
    EmitCallsHeld(all, event, throws);
    ListenersAreCounted(all, event, h);
    RemovedHas(Expected(ops, event), h, h);
    assert Times(HandlersAt(After(all), event), h) == Dups(ops, event, h);
  }

  /** And it stays so: no later call takes a duplicate away. */
  lemma {:induction false} DuplicatesAreNeverRemoved(ops: seq<Op>, more: seq<Op>, event: string, h: nat)
    ensures Dups(ops, event, h) <= Dups(ops + more, event, h) <= Times(HandlersAt(After(ops + more), event), h)
  {
    ListenersAreCounted(ops + more, event, h);
    hide Expected, HandlersAt, Times, After, LooseInv, PerEvent;
    if more == [] {
      assert ops + more == ops;
    } else {
      var less := more[..|more| - 1];
      assert (ops + more)[..|ops + more| - 1] == ops + less;
      DuplicatesAreNeverRemoved(ops, less, event, h);
    }
  }

  // ----- exactly which registrations are left -----

  /** The registration made by call `i` was not taken out: the first removal behind it, if any, met a later registration. */
  predicate Survives(ops: seq<Op>, i: nat)
    requires i < |ops|
  {
    && ops[i].Register?
    && forall j :: i < j < |ops| && ops[j] == Unregister(ops[i].event, ops[i].handler)
         ==> exists k :: i < k < j && ops[k] == ops[i]
  }

  /** The handlers of the registrations that survive among the first `n` calls, in the order of the calls. */
  function Surviving(ops: seq<Op>, event: string, n: nat): seq<nat>
    requires n <= |ops|
  {
    if n == 0 then []
    else
      var before := Surviving(ops, event, n - 1);
      if ops[n - 1].event == event && Survives(ops, n - 1) then before + [ops[n - 1].handler] else before
  }

  lemma LastIsLast(ops: seq<Op>, event: string, h: nat)
    ensures var p := LastRegistered(ops, event, h);
            && -1 <= p < |ops| && (p >= 0 ==> ops[p] == Register(event, h))
            && (forall k :: p < k < |ops| ==> ops[k] != Register(event, h))
  {
  }

  /** A removal takes out the latest registration of its handler and no other. */
  lemma SurvivesOneMore(ops: seq<Op>, op: Op, i: nat)
    requires i < |ops|
    ensures Survives(ops + [op], i) <==>
            Survives(ops, i) && !(op.Unregister? && i == LastRegistered(ops, op.event, op.handler))
    ensures Survives(ops, i) && ops[i].event == op.event && LastRegistered(ops, op.event, op.handler) < i
            ==> ops[i].handler != op.handler
    ensures i == LastRegistered(ops, op.event, op.handler) ==> ops[i] == Register(op.event, op.handler)
  {
    LastIsLast(ops, op.event, op.handler);
    var all, p := ops + [op], LastRegistered(ops, op.event, op.handler);
    assert all[|ops|] == op && forall k :: 0 <= k < |ops| ==> all[k] == ops[k];
    assert Survives(ops, i) ==> ops[i] == Register(ops[i].event, ops[i].handler);
    if ops[i].Register? && op == Unregister(ops[i].event, ops[i].handler) && i != p {
      assert i < p && all[p] == all[i];
    }
  }

  lemma RemoveLastBehind(handlers: seq<nat>, x: nat, h: nat)
    ensures RemoveLast(handlers + [x], h) == if x == h then handlers else RemoveLast(handlers, h) + [x]
  {
    assert (handlers + [x])[..|handlers|] == handlers;
  }

  lemma {:induction false} SurvivingOneMore(ops: seq<Op>, op: Op, event: string, n: nat)
    requires n <= |ops|
    ensures var p := LastRegistered(ops, op.event, op.handler);
            Surviving(ops + [op], event, n)
            == if op.Unregister? && op.event == event && 0 <= p < n && Survives(ops, p)
               then RemoveLast(Surviving(ops, event, n), op.handler) else Surviving(ops, event, n)
  {
    if n > 0 {
      var p, last, was := LastRegistered(ops, op.event, op.handler), ops[n - 1], Surviving(ops, event, n - 1);
      hide Survives, LastRegistered, RemoveLast;
      SurvivesOneMore(ops, op, n - 1);
      SurvivingOneMore(ops, op, event, n - 1);
      assert (ops + [op])[n - 1] == last;
      RemoveLastBehind(was, last.handler, op.handler);
    }
  }

  lemma RegisteredSurvives(ops: seq<Op>, event: string, h: nat)
    ensures var p := LastRegistered(ops, event, h);
            p < |ops| && (h in Expected(ops, event) <==> p >= 0 && Survives(ops, p))
  {
    ExpectedMeansRegistered(ops, event, h);
    LastIsLast(ops, event, h);
    var p := LastRegistered(ops, event, h);
    if Registered(ops, event, h) {
      var i: nat :| RegisteredAt(ops, event, h, i);
      assert i <= p;
    }
    if p >= 0 && Survives(ops, p) {
      assert RegisteredAt(ops, event, h, p);
    }
  }

  lemma HeldOneMore(ops: seq<Op>, op: Op, event: string)
    ensures HandlersAt(Do(After(ops), op), event)
         == if op.event != event then HandlersAt(After(ops), event)
            else if op.Register? then HandlersAt(After(ops), event) + [op.handler]
            else if op.handler in Expected(ops, event) then RemoveLast(HandlersAt(After(ops), event), op.handler)
            else HandlersAt(After(ops), event)
  {
    ListenersAreCounted(ops, op.event, op.handler);
    hide LooseInv, On, Off, PerEvent, HandlersAt, After, RemoveLast, Expected;
    if op.Register? {
      OnAdds(After(ops), op.event, op.handler);
    } else {
      OffTakesOne(After(ops), op.event, op.handler);
    }
  }

  lemma SurvivingWithCall(ops: seq<Op>, op: Op, event: string)
    ensures Surviving(ops + [op], event, |ops| + 1)
         == if op.event != event then Surviving(ops, event, |ops|)
            else if op.Register? then Surviving(ops, event, |ops|) + [op.handler]
            else if op.handler in Expected(ops, event) then RemoveLast(Surviving(ops, event, |ops|), op.handler)
            else Surviving(ops, event, |ops|)
  {
    RegisteredSurvives(ops, op.event, op.handler);
    SurvivingOneMore(ops, op, event, |ops|);
    assert Survives(ops + [op], |ops|) <==> op.Register?;
    hide Survives, LastRegistered, RemoveLast, Expected;
    assert (ops + [op])[|ops|] == op;
  }

  /** After any sequence whatever, the emitter holds exactly the registrations that survive, in order. */
  lemma {:induction false} BusHoldsSurviving(ops: seq<Op>, event: string)
    ensures HandlersAt(After(ops), event) == Surviving(ops, event, |ops|)
  {
    if ops != [] {
      var before, op := ops[..|ops| - 1], ops[|ops| - 1];
      assert ops == before + [op];
      BusHoldsSurviving(before, event);
      HeldOneMore(before, op, event);
      SurvivingWithCall(before, op, event);
      hide HandlersAt, Surviving, Do, RemoveLast, Expected;
    }
  }

  /** So an emit calls exactly those, once for each registration, whichever throw. */
  lemma EmitCallsSurviving(ops: seq<Op>, event: string, throws: nat -> bool)
    ensures Emit(ListenersOf(After(ops), event), throws) == Fired(Surviving(ops, event, |ops|), false)
  {
    EmitCallsHeld(ops, event, throws);
    BusHoldsSurviving(ops, event);
  }
}
