/**
 * Two layers of listener bookkeeping: the typed bus keeps a map from handlers to the guarded
 * listeners it gave the emitter, and the tracing wrapper keeps one from handlers to span listeners.
 */
module EventBus {
  /**
   * Functions by identity. A span listener and a guarded listener are new closures each time they
   * are made, told apart by a serial number.
   */
  datatype Listener =
    | Raw(handler: nat)
    | Span(handler: nat, index: nat)
    | Guarded(inner: Listener, serial: nat)

  datatype State = State(
    listeners: map<string, seq<Listener>>,            // the emitter
    wrappers: map<string, map<Listener, Listener>>,   // the typed bus
    serial: nat,
    wrapperMap: map<string, map<nat, Listener>>,      // the tracing wrapper
    index: nat)

  const EMPTY := State(map[], map[], 0, map[], 0)

  function ListenersOf(s: State, event: string): seq<Listener> {
    if event in s.listeners then s.listeners[event] else []
  }

  /** The emitter drops the most recently added instance of a listener. */
  function RemoveLast<T(==)>(list: seq<T>, l: T): seq<T> {
    if list == [] then []
    else if list[|list| - 1] == l then list[..|list| - 1]
    else RemoveLast(list[..|list| - 1], l) + [list[|list| - 1]]
  }

  function PerEvent<K, V>(m: map<string, map<K, V>>, event: string): map<K, V> {
    if event in m then m[event] else map[]
  }

  /** Removes one entry, and the event's map with it when that was the last. */
  function Forget<K, V>(m: map<string, map<K, V>>, event: string, key: K): map<string, map<K, V>> {
    var rest := PerEvent(m, event) - {key};
    if rest == map[] then m - {event} else m[event := rest]
  }

  // ----- the typed bus -----

  function TypedOn(s: State, event: string, handler: Listener): State {
    var wrapped := Guarded(handler, s.serial);
    s.(serial := s.serial + 1,
       wrappers := s.wrappers[event := PerEvent(s.wrappers, event)[handler := wrapped]],
       listeners := s.listeners[event := ListenersOf(s, event) + [wrapped]])
  }

  function TypedOff(s: State, event: string, handler: Listener): State {
    if handler in PerEvent(s.wrappers, event) then
      s.(listeners := s.listeners[event := RemoveLast(ListenersOf(s, event), s.wrappers[event][handler])],
         wrappers := Forget(s.wrappers, event, handler))
    else
      s.(listeners := s.listeners[event := RemoveLast(ListenersOf(s, event), handler)])
  }

  // ----- the tracing wrapper -----

  function On(s: State, event: string, handler: nat): State {
    var wrapped := Span(handler, s.index);
    TypedOn(s.(index := s.index + 1,
               wrapperMap := s.wrapperMap[event := PerEvent(s.wrapperMap, event)[handler := wrapped]]),
            event, wrapped)
  }

  function Off(s: State, event: string, handler: nat): State {
    if handler in PerEvent(s.wrapperMap, event) then
      TypedOff(s, event, s.wrapperMap[event][handler]).(wrapperMap := Forget(s.wrapperMap, event, handler))
    else
      TypedOff(s, event, Raw(handler))
  }

  // ----- emitting -----

  datatype Fired = Fired(called: seq<nat>, threw: bool)

  /** One listener: a guarded one swallows what its handler throws, an async span one rejects instead. */
  function Invoke(l: Listener, throws: nat -> bool): Fired {
    match l
    case Raw(h) => Fired([h], throws(h))
    case Span(h, _) => Fired([h], false)
    case Guarded(inner, _) => Fired(Invoke(inner, throws).called, false)
  }

  /** Synchronously, in order; a listener that throws ends the emit. */
  function Emit(list: seq<Listener>, throws: nat -> bool): Fired {
    if list == [] then Fired([], false)
    else
      var first := Invoke(list[0], throws);
      if first.threw then first
      else
        var rest := Emit(list[1..], throws);
        Fired(first.called + rest.called, rest.threw)
  }

  // ----- the invariant -----

  function HandlerOf(l: Listener): nat {
    match l
    case Raw(h) => h
    case Span(h, _) => h
    case Guarded(inner, _) => HandlerOf(inner)
  }

  function HandlersOf(list: seq<Listener>): seq<nat> {
    seq(|list|, i requires 0 <= i < |list| => HandlerOf(list[i]))
  }

  /** What is registered for an event: the emitter's listeners, seen as handlers. */
  function HandlersAt(s: State, event: string): seq<nat> {
    HandlersOf(ListenersOf(s, event))
  }

  ghost predicate Distinct(handlers: seq<nat>) {
    forall i, j :: 0 <= i < j < |handlers| ==> handlers[i] != handlers[j]
  }

  /** A listener as `On` makes them, found again through both maps. */
  ghost predicate Mapped(l: Listener, wrappers: map<Listener, Listener>, wrapperMap: map<nat, Listener>) {
    && l.Guarded? && l.inner.Span?
    && l.inner in wrappers && wrappers[l.inner] == l
    && HandlerOf(l) in wrapperMap && wrapperMap[HandlerOf(l)] == l.inner
  }

  /** For one event, both maps hold exactly the listeners that the emitter holds. */
  ghost predicate Agree(list: seq<Listener>, wrappers: map<Listener, Listener>, wrapperMap: map<nat, Listener>) {
    && Distinct(HandlersOf(list))
    && (forall i :: 0 <= i < |list| ==> Mapped(list[i], wrappers, wrapperMap))
    && (forall h :: h in wrapperMap ==> wrapperMap[h] in wrappers && wrappers[wrapperMap[h]] in list && HandlerOf(wrapperMap[h]) == h)
    && (forall k :: k in wrappers ==> wrappers[k] in list && wrappers[k].Guarded? && wrappers[k].inner == k)
  }

  ghost predicate AgreeAt(s: State, event: string) {
    Agree(ListenersOf(s, event), PerEvent(s.wrappers, event), PerEvent(s.wrapperMap, event))
  }

  /** An event whose last handler went leaves no empty map behind. */
  ghost predicate NoneEmpty<K, V>(m: map<string, map<K, V>>) {
    forall event :: event in m ==> m[event] != map[]
  }

  ghost predicate Inv(s: State) {
    (forall event :: AgreeAt(s, event)) && NoneEmpty(s.wrappers) && NoneEmpty(s.wrapperMap)
  }

  lemma {:induction false} RemoveLastOfAbsent<T>(list: seq<T>, l: T)
    requires l !in list
    ensures RemoveLast(list, l) == list
  {
    if list != [] {
      RemoveLastOfAbsent(list[..|list| - 1], l);
    }
  }

  lemma {:induction false} RemoveLastAt<T>(list: seq<T>, l: T, i: nat)
    requires i < |list| && list[i] == l && forall j :: i < j < |list| ==> list[j] != l
    ensures RemoveLast(list, l) == list[..i] + list[i + 1..]
  {
    if i < |list| - 1 {
      RemoveLastAt(list[..|list| - 1], l, i);
      assert list[..|list| - 1][i + 1..] + [list[|list| - 1]] == list[i + 1..];
    }
  }

  /** A new handler is added at the end, and the maps follow. */
  lemma AgreeAfterOn(list: seq<Listener>, wrappers: map<Listener, Listener>, wrapperMap: map<nat, Listener>, l: Listener)
    requires Agree(list, wrappers, wrapperMap) && l.Guarded? && l.inner.Span? && HandlerOf(l) !in HandlersOf(list)
    ensures Agree(list + [l], wrappers[l.inner := l], wrapperMap[HandlerOf(l) := l.inner])
    ensures HandlersOf(list + [l]) == HandlersOf(list) + [HandlerOf(l)]
  {
    assert HandlersOf(list + [l]) == HandlersOf(list) + [HandlerOf(l)];
    forall i | 0 <= i < |list| ensures HandlerOf(list[i]) != HandlerOf(l) {
      assert HandlersOf(list)[i] in HandlersOf(list);
    }
    forall k | k in wrappers ensures k != l.inner {
      var i :| 0 <= i < |list| && list[i] == wrappers[k];
    }
  }

  function Without<T>(list: seq<T>, i: nat): seq<T>
    requires i < |list|
  {
    list[..i] + list[i + 1..]
  }

  /** The listener that a registered handler is found under, and its only place in the list. */
  lemma PlaceOf(list: seq<Listener>, wrappers: map<Listener, Listener>, wrapperMap: map<nat, Listener>, h: nat) returns (i: nat)
    requires Agree(list, wrappers, wrapperMap) && h in wrapperMap
    ensures i < |list| && list[i] == wrappers[wrapperMap[h]] && HandlersOf(list)[i] == h
    ensures RemoveLast(list, list[i]) == Without(list, i)
    ensures HandlersOf(Without(list, i)) == Without(HandlersOf(list), i)
  {
    var l := wrappers[wrapperMap[h]];
    i :| 0 <= i < |list| && list[i] == l;
    assert HandlersOf(list)[i] == h;
    forall j | 0 <= j < |list| && j != i ensures list[j] != l {
      assert HandlersOf(list)[j] != HandlersOf(list)[i];
    }
    RemoveLastAt(list, l, i);
  }

  lemma WithoutKeepsOthers(list: seq<Listener>, i: nat)
    requires i < |list|
    ensures forall m :: m in list && m != list[i] ==> m in Without(list, i)
    ensures forall j :: 0 <= j < |Without(list, i)| ==> Without(list, i)[j] == list[if j < i then j else j + 1]
  {
    forall m | m in list && m != list[i] ensures m in Without(list, i) {
      var j :| 0 <= j < |list| && list[j] == m;
      assert j < i ==> Without(list, i)[j] == m;
      assert j > i ==> Without(list, i)[j - 1] == m;
    }
  }

  /** A registered handler is taken out, and nothing else. */
  lemma AgreeAfterOff(list: seq<Listener>, wrappers: map<Listener, Listener>, wrapperMap: map<nat, Listener>, h: nat, i: nat)
    requires Agree(list, wrappers, wrapperMap) && h in wrapperMap
    requires i < |list| && list[i] == wrappers[wrapperMap[h]] && HandlersOf(list)[i] == h
    ensures Agree(Without(list, i), wrappers - {wrapperMap[h]}, wrapperMap - {h})
  {
    var k, shorter := wrapperMap[h], Without(list, i);
    WithoutKeepsOthers(list, i);
    forall j | 0 <= j < |shorter| ensures Mapped(shorter[j], wrappers - {k}, wrapperMap - {h}) {
      var m := if j < i then j else j + 1;
      assert shorter[j] == list[m] && Mapped(list[m], wrappers, wrapperMap);
      assert HandlersOf(list)[m] != HandlersOf(list)[i];
    }
    forall a, b | 0 <= a < b < |shorter| ensures HandlersOf(shorter)[a] != HandlersOf(shorter)[b] {
      var m, n := if a < i then a else a + 1, if b < i then b else b + 1;
      assert HandlersOf(list)[m] != HandlersOf(list)[n];
    }
  }

  // ----- what each call does -----

  ghost predicate SameElsewhere(s: State, r: State, event: string) {
    forall other :: other != event ==> HandlersAt(r, other) == HandlersAt(s, other)
  }

  ghost predicate ChangedOnlyAt(s: State, r: State, event: string) {
    forall other :: other != event ==>
      && ListenersOf(r, other) == ListenersOf(s, other)
      && PerEvent(r.wrappers, other) == PerEvent(s.wrappers, other)
      && PerEvent(r.wrapperMap, other) == PerEvent(s.wrapperMap, other)
  }

  lemma InvAfter(s: State, r: State, event: string)
    requires Inv(s) && AgreeAt(r, event) && ChangedOnlyAt(s, r, event)
    requires NoneEmpty(r.wrappers) && NoneEmpty(r.wrapperMap)
    ensures Inv(r) && SameElsewhere(s, r, event)
  {
    hide Agree, ListenersOf, PerEvent, NoneEmpty;
    forall other ensures AgreeAt(r, other) {
      assert AgreeAt(s, other);
    }
  }

  lemma OnShape(s: State, event: string, handler: nat)
    requires NoneEmpty(s.wrappers) && NoneEmpty(s.wrapperMap)
    ensures var r := On(s, event, handler);
            var l := Guarded(Span(handler, s.index), s.serial);
            && ListenersOf(r, event) == ListenersOf(s, event) + [l]
            && PerEvent(r.wrappers, event) == PerEvent(s.wrappers, event)[l.inner := l]
            && PerEvent(r.wrapperMap, event) == PerEvent(s.wrapperMap, event)[handler := l.inner]
            && ChangedOnlyAt(s, r, event) && NoneEmpty(r.wrappers) && NoneEmpty(r.wrapperMap)
  {
    var r := On(s, event, handler);
    assert handler in r.wrapperMap[event] && Span(handler, s.index) in r.wrappers[event];
  }

  /** Registering a handler that is not registered appends it. */
  lemma OnAppends(s: State, event: string, handler: nat)
    requires Inv(s) && handler !in HandlersAt(s, event)
    ensures var r := On(s, event, handler);
            Inv(r) && HandlersAt(r, event) == HandlersAt(s, event) + [handler] && SameElsewhere(s, r, event)
  {
    var l := Guarded(Span(handler, s.index), s.serial);
    assert AgreeAt(s, event);
    OnShape(s, event, handler);
    hide On, ListenersOf, PerEvent, NoneEmpty, ChangedOnlyAt;
    AgreeAfterOn(ListenersOf(s, event), PerEvent(s.wrappers, event), PerEvent(s.wrapperMap, event), l);
    hide Agree, HandlersOf;
    InvAfter(s, On(s, event, handler), event);
  }

  lemma HandlerIsMapped(list: seq<Listener>, wrappers: map<Listener, Listener>, wrapperMap: map<nat, Listener>, h: nat)
    requires Agree(list, wrappers, wrapperMap)
    ensures h in wrapperMap <==> h in HandlersOf(list)
    ensures Raw(h) !in list && Raw(h) !in wrappers
  {
    if h in HandlersOf(list) {
      var i :| 0 <= i < |list| && HandlersOf(list)[i] == h;
      assert Mapped(list[i], wrappers, wrapperMap);
    }
    if h in wrapperMap {
      var i :| 0 <= i < |list| && list[i] == wrappers[wrapperMap[h]];
      assert HandlersOf(list)[i] == h;
    }
    assert Raw(h) in wrappers ==> wrappers[Raw(h)] in list;
    assert forall i :: 0 <= i < |list| ==> Mapped(list[i], wrappers, wrapperMap);
  }

  function Removed(handlers: seq<nat>, h: nat): seq<nat> {
    if handlers == [] then []
    else Removed(handlers[..|handlers| - 1], h) + if handlers[|handlers| - 1] == h then [] else [handlers[|handlers| - 1]]
  }

  lemma {:induction false} RemovedOfAbsent(handlers: seq<nat>, h: nat)
    requires h !in handlers
    ensures Removed(handlers, h) == handlers
  {
    if handlers != [] {
      RemovedOfAbsent(handlers[..|handlers| - 1], h);
    }
  }

  lemma {:induction false} RemovedIsWithout(handlers: seq<nat>, i: nat)
    requires Distinct(handlers) && i < |handlers|
    ensures Removed(handlers, handlers[i]) == Without(handlers, i)
  {
    var n := |handlers| - 1;
    if i < n {
      RemovedIsWithout(handlers[..n], i);
      assert Without(handlers, i) == Without(handlers[..n], i) + [handlers[n]];
    } else {
      RemovedOfAbsent(handlers[..n], handlers[n]);
      assert Without(handlers, i) == handlers[..n];
    }
  }

  /** Unregistering takes the handler out, whether or not it was there. */
  lemma OffRemoves(s: State, event: string, handler: nat)
    requires Inv(s)
    ensures var r := Off(s, event, handler);
            Inv(r) && HandlersAt(r, event) == Removed(HandlersAt(s, event), handler) && SameElsewhere(s, r, event)
  {
    var list, ws, wm := ListenersOf(s, event), PerEvent(s.wrappers, event), PerEvent(s.wrapperMap, event);
    assert AgreeAt(s, event);
    HandlerIsMapped(list, ws, wm, handler);
    if handler in wm {
      OffRegistered(s, event, handler);
    } else {
      OffAbsentShape(s, event, handler);
      RemoveLastOfAbsent(list, Raw(handler));
      RemovedOfAbsent(HandlersOf(list), handler);
      hide Off, Agree, RemoveLast, HandlersOf, Removed, ListenersOf, PerEvent, NoneEmpty, ChangedOnlyAt;
      InvAfter(s, Off(s, event, handler), event);
    }
  }

  lemma OffShape(s: State, event: string, handler: nat)
    requires NoneEmpty(s.wrappers) && NoneEmpty(s.wrapperMap) && handler in PerEvent(s.wrapperMap, event)
    requires s.wrapperMap[event][handler] in PerEvent(s.wrappers, event)
    ensures var r := Off(s, event, handler);
            var k := s.wrapperMap[event][handler];
            && ListenersOf(r, event) == RemoveLast(ListenersOf(s, event), s.wrappers[event][k])
            && PerEvent(r.wrappers, event) == PerEvent(s.wrappers, event) - {k}
            && PerEvent(r.wrapperMap, event) == PerEvent(s.wrapperMap, event) - {handler}
            && ChangedOnlyAt(s, r, event) && NoneEmpty(r.wrappers) && NoneEmpty(r.wrapperMap)
  {
    hide RemoveLast;
  }

  lemma OffRegistered(s: State, event: string, handler: nat)
    requires Inv(s) && handler in PerEvent(s.wrapperMap, event)
    ensures var r := Off(s, event, handler);
            Inv(r) && HandlersAt(r, event) == Removed(HandlersAt(s, event), handler) && SameElsewhere(s, r, event)
  {
    var list, ws, wm := ListenersOf(s, event), PerEvent(s.wrappers, event), PerEvent(s.wrapperMap, event);
    assert AgreeAt(s, event);
    assert wm[handler] in ws && wm[handler] == s.wrapperMap[event][handler] && ws == s.wrappers[event];
    OffShape(s, event, handler);
    hide Off, ListenersOf, PerEvent, NoneEmpty, ChangedOnlyAt, RemoveLast, Removed;
    var i := PlaceOf(list, ws, wm, handler);
    AgreeAfterOff(list, ws, wm, handler, i);
    RemovedIsWithout(HandlersOf(list), i);
    hide Agree, HandlersOf;
    InvAfter(s, Off(s, event, handler), event);
  }

  lemma OffAbsentShape(s: State, event: string, handler: nat)
    requires NoneEmpty(s.wrappers) && NoneEmpty(s.wrapperMap) && handler !in PerEvent(s.wrapperMap, event)
    requires Raw(handler) !in PerEvent(s.wrappers, event)
    ensures var r := Off(s, event, handler);
            && ListenersOf(r, event) == RemoveLast(ListenersOf(s, event), Raw(handler))
            && PerEvent(r.wrappers, event) == PerEvent(s.wrappers, event)
            && PerEvent(r.wrapperMap, event) == PerEvent(s.wrapperMap, event)
            && ChangedOnlyAt(s, r, event) && NoneEmpty(r.wrappers) && NoneEmpty(r.wrapperMap)
  {
    hide RemoveLast;
  }

  lemma {:induction false} InvokeCallsHandler(l: Listener, throws: nat -> bool)
    ensures Invoke(l, throws).called == [HandlerOf(l)]
  {
    if l.Guarded? {
      InvokeCallsHandler(l.inner, throws);
    }
  }

  /**
   * An emit calls every handler behind a guard once, in registration order, whichever of them throw,
   * whether the tracing wrapper stands in between or not.
   */
  lemma {:induction false} EmitCallsAll(list: seq<Listener>, throws: nat -> bool)
    requires forall i :: 0 <= i < |list| ==> list[i].Guarded?
    ensures Emit(list, throws) == Fired(HandlersOf(list), false)
  {
    if list != [] {
      EmitCallsAll(list[1..], throws);
      assert HandlersOf(list) == [HandlerOf(list[0])] + HandlersOf(list[1..]);
      InvokeCallsHandler(list[0], throws);
    }
  }
}
