/** `solid.widgets.Widget`: a table from native event ids to signals, filled
    lazily by the property delegates `registerSignal` hands out, and the
    dispatch of an incoming native event to the signal under its id.

    The signals of this table are the non-generic signals of the widget
    layer; they are modelled as `Signal<Unit>`, so their handlers receive the
    unit value. */
module Widgets {
  import opened Base
  import opened Registry
  import opened Emitters
  import opened Signals

  /** A hub of the widget layer's signals. */
  type WidgetHub = SignalHub<()>

  datatype Widget = Widget(signals: map<Int32, EmitterId>)

  /** The delegate `registerSignal(id)` returns, with its cached signal. */
  datatype SignalDelegate = SignalDelegate(id: Int32, value: Option<EmitterId>)

  /** The widget's map holds strong references, so every signal in it is
      reachable. */
  ghost predicate WidgetValid(w: Widget, hub: WidgetHub) {
    && Valid(hub)
    && forall id | id in w.signals :: Alive(hub, w.signals[id])
  }

  /** A delegate's cached signal is reachable through the delegate itself. */
  predicate DelegateValid(d: SignalDelegate, hub: WidgetHub) {
    d.value.Some? ==> Alive(hub, d.value.value)
  }

  /** A widget with no signal registered. */
  function NewWidget(): (w: Widget)
    ensures forall id :: id !in w.signals
  {
    Widget(map[])
  }

  /** `registerSignal(id)`: a delegate for `id` with nothing cached; the
      widget's map is not touched until the delegate is first read. */
  function RegisterSignal(w: Widget, id: Int32): (r: (Widget, SignalDelegate))
    ensures r.0.signals == w.signals
    ensures r.1.id == id && r.1.value.None?
  {
    (w, SignalDelegate(id, None))
  }

  /** `getValue`: the cached signal, or on the first read a new signal that
      is stored under the delegate's id (replacing any entry there) and
      cached. */
  function GetValue(w: Widget, d: SignalDelegate, hub: WidgetHub): (r: (Widget, SignalDelegate, WidgetHub, EmitterId))
    requires WidgetValid(w, hub) && DelegateValid(d, hub)
    ensures WidgetValid(r.0, r.2) && DelegateValid(r.1, r.2)
    ensures Alive(r.2, r.3) && r.1 == d.(value := Some(r.3))
    ensures d.value.Some? ==> r == (w, d, hub, d.value.value)
    ensures d.value.None? ==>
      && r.3 !in hub.emitters
      && r.2.emitters[r.3].subscribers == []
      && r.0.signals == w.signals[d.id := r.3]
      && (forall x | x in hub.emitters :: x in r.2.emitters && r.2.emitters[x] == hub.emitters[x])
      && r.2.handlers == hub.handlers && r.2.calls == hub.calls
  {
    match d.value
    case Some(s) => (w, d, hub, s)
    case None =>
      var (hub', s) := New(hub, ());
      (w.(signals := w.signals[d.id := s]), d.(value := Some(s)), hub', s)
  }

  /** `handleEvent(eventId)`: emit the signal stored under the id and report
      that the event was handled, or report false when there is none. */
  function HandleEvent(w: Widget, hub: WidgetHub, eventId: Int32): (r: (WidgetHub, bool))
    requires WidgetValid(w, hub)
    ensures Valid(r.0) && Frame(hub, r.0)
    ensures r.1 <==> eventId in w.signals
    ensures eventId !in w.signals ==> r.0 == hub
    ensures eventId in w.signals ==>
      r.0.calls == hub.calls + CallsFor(hub.emitters[w.signals[eventId]].subscribers, ())
  {
    if eventId in w.signals then
      var s := w.signals[eventId];
      assert hub.emitters[s].translate(()) == ();
      (Emit(hub, s, ()), true)
    else (hub, false)
  }

  /** Handling an event runs the handlers of the signal under that id, once
      each, and no other handler. */
  lemma HandleEventRunsThatSignal(w: Widget, hub: WidgetHub, eventId: Int32, h: HandlerId)
    requires WidgetValid(w, hub)
    ensures var r := HandleEvent(w, hub, eventId).0;
      CallsTo(r.calls[|hub.calls|..], h)
        == if eventId in w.signals && Subscribed(hub, w.signals[eventId], h) then 1 else 0
  {
    if eventId in w.signals {
      EmitInvokesEachSubscriberOnce(hub, w.signals[eventId], (), h);
    } else {
      assert hub.calls[|hub.calls|..] == [];
    }
  }

  /** In a coherent hub, handling an event changes the handler set of no
      signal but the one under that id. */
  lemma HandleEventTouchesOnlyThatSignal(w: Widget, hub: WidgetHub, eventId: Int32, x: EmitterId, g: HandlerId)
    requires WidgetValid(w, hub) && Coherent(hub)
    requires eventId !in w.signals || x != w.signals[eventId]
    ensures Subscribed(HandleEvent(w, hub, eventId).0, x, g) <==> Subscribed(hub, x, g)
  {
    if eventId in w.signals {
      var s := w.signals[eventId];
      EmitSubscriptions(hub, s, (), x, g);
      if SelfDetaches(hub, hub.emitters[s].subscribers, x, g) {
        assert Subscribed(hub, s, g);
      }
    }
  }

  /** Widget resolution of the native callback: the binding's `tryWrap`,
      which as shipped resolves no pointer. */
  function TryWrap(pointer: nat): (r: Option<Widget>)
    ensures r.None?
  {
    None
  }

  /** The native event callback: resolve the widget, then handle the event;
      when resolution fails, report false and dispatch nothing. */
  function NativeEventHandler(resolved: Option<Widget>, hub: WidgetHub, eventId: Int32): (r: (WidgetHub, bool))
    requires resolved.Some? ==> WidgetValid(resolved.value, hub)
    ensures resolved.None? ==> r == (hub, false)
    ensures resolved.Some? ==> (r.1 <==> eventId in resolved.value.signals)
  {
    match resolved
    case None => (hub, false)
    case Some(w) => HandleEvent(w, hub, eventId)
  }

  /** With the shipped `tryWrap`, the native callback never dispatches. */
  lemma ShippedCallbackDispatchesNothing(pointer: nat, hub: WidgetHub, eventId: Int32)
    ensures NativeEventHandler(TryWrap(pointer), hub, eventId) == (hub, false)
  {
  }

  /** Registration is lazy and reads are stable: registering adds no entry;
      the first read adds exactly one, under the id, for a new signal with no
      handlers; a second read through the same delegate returns that signal
      and changes nothing. */
  lemma LazyRegistration(w: Widget, hub: WidgetHub, id: Int32)
    requires WidgetValid(w, hub)
    ensures var (w1, d) := RegisterSignal(w, id);
      var (w2, d2, hub2, s) := GetValue(w1, d, hub);
      && w1.signals == w.signals
      && id in w2.signals && w2.signals[id] == s
      && w2.signals.Keys == w.signals.Keys + {id}
      && (forall k | k in w.signals && k != id :: w2.signals[k] == w.signals[k])
      && hub2.emitters[s].subscribers == []
      && GetValue(w2, d2, hub2) == (w2, d2, hub2, s)
  {
  }

  /** Two delegates for the same id: the second one's first read replaces
      the entry, so the widget dispatches to its signal while the first
      delegate keeps handing out the old one. */
  lemma SecondDelegateReplacesEntry(w: Widget, hub: WidgetHub, id: Int32)
    requires WidgetValid(w, hub)
    ensures var (w1, d1, hub1, s1) := GetValue(w, SignalDelegate(id, None), hub);
      var (w2, d2, hub2, s2) := GetValue(w1, SignalDelegate(id, None), hub1);
      && s1 != s2
      && w2.signals[id] == s2
      && GetValue(w2, d1, hub2).3 == s1
  {
    var (w1, d1, hub1, s1) := GetValue(w, SignalDelegate(id, None), hub);
    var (w2, d2, hub2, s2) := GetValue(w1, SignalDelegate(id, None), hub1);
    assert s1 in hub1.emitters;
    assert Alive(hub2, s1);
  }
}
