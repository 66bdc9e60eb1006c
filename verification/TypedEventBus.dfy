/** The two layers as objects: the typed bus, and the wrapper that takes over its `on`, `off` and `emit`. */
module TypedEventBus {
  import opened EventBus

  class Bus {
    var listeners: map<string, seq<Listener>>
    var wrappers: map<string, map<Listener, Listener>>
    var serial: nat

    ghost function View(): State
      reads this
    {
      State(listeners, wrappers, serial, map[], 0)
    }

    constructor ()
      ensures View() == EMPTY
    {
      listeners, wrappers, serial := map[], map[], 0;
    }

    method On(event: string, handler: Listener)
      modifies this
      ensures View() == TypedOn(old(View()), event, handler)
    {
      var wrapped := Guarded(handler, serial);
      serial := serial + 1;
      var perEvent: map<Listener, Listener> := map[];
      if event in wrappers {
        perEvent := wrappers[event];
      }
      wrappers := wrappers[event := perEvent[handler := wrapped]];
      listeners := listeners[event := (if event in listeners then listeners[event] else []) + [wrapped]];
    }

    method Off(event: string, handler: Listener)
      modifies this
      ensures View() == TypedOff(old(View()), event, handler)
    {
      var list := if event in listeners then listeners[event] else [];
      if event in wrappers && handler in wrappers[event] {
        listeners := listeners[event := RemoveLast(list, wrappers[event][handler])];
        wrappers := wrappers[event := wrappers[event] - {handler}];
        if wrappers[event] == map[] {
          wrappers := wrappers - {event};
        }
        assert wrappers == Forget(old(wrappers), event, handler);
      } else {
        listeners := listeners[event := RemoveLast(list, handler)];
      }
    }

    /** `emitter.emit`: a copy of the list is run through in order until a listener throws. */
    method Emit(event: string, throws: nat -> bool) returns (called: seq<nat>, threw: bool)
      ensures Fired(called, threw) == EventBus.Emit(ListenersOf(View(), event), throws)
    {
      var list := if event in listeners then listeners[event] else [];
      called, threw := [], false;
      for i := 0 to |list|
        invariant !threw
        invariant var rest := EventBus.Emit(list[i..], throws);
                  EventBus.Emit(list, throws) == Fired(called + rest.called, rest.threw)
      {
        assert list[i..][0] == list[i] && list[i..][1..] == list[i + 1..];
        var fired := Invoke(list[i], throws);
        called := called + fired.called;
        if fired.threw {
          return called, true;
        }
      }
    }
  }

  class TracedBus {
    const bus: Bus
    var wrapperMap: map<string, map<nat, Listener>>
    var listenerIndex: nat

    ghost function View(): State
      reads this, bus
    {
      bus.View().(wrapperMap := wrapperMap, index := listenerIndex)
    }

    constructor (bus: Bus)
      requires bus.View() == EMPTY
      ensures View() == EMPTY && this.bus == bus
    {
      this.bus, wrapperMap, listenerIndex := bus, map[], 0;
    }

    method On(event: string, handler: nat)
      modifies this, bus
      ensures View() == EventBus.On(old(View()), event, handler)
    {
      var wrapped := Span(handler, listenerIndex);
      listenerIndex := listenerIndex + 1;
      var perEvent: map<nat, Listener> := map[];
      if event in wrapperMap {
        perEvent := wrapperMap[event];
      }
      wrapperMap := wrapperMap[event := perEvent[handler := wrapped]];
      bus.On(event, wrapped);
    }

    method Off(event: string, handler: nat)
      modifies this, bus
      ensures View() == EventBus.Off(old(View()), event, handler)
    {
      if event in wrapperMap && handler in wrapperMap[event] {
        bus.Off(event, wrapperMap[event][handler]);
        wrapperMap := wrapperMap[event := wrapperMap[event] - {handler}];
        if wrapperMap[event] == map[] {
          wrapperMap := wrapperMap - {event};
        }
        assert wrapperMap == Forget(old(wrapperMap), event, handler);
      } else {
        bus.Off(event, Raw(handler));
      }
    }

    /** Opens a span and runs the bus's own emit inside it, once. */
    method Emit(event: string, throws: nat -> bool) returns (called: seq<nat>, threw: bool)
      ensures Fired(called, threw) == EventBus.Emit(ListenersOf(View(), event), throws)
    {
      called, threw := bus.Emit(event, throws);
    }
  }
}
