/** `Event<T>`: an emitter whose handlers receive a context computed from
    the optional `Bundle` handed to `emit` by the event's
    `translateContext`. */
module Events {
  import opened Base
  import opened Registry
  import opened Bundles
  import opened Emitters

  /** A hub of events with context type `T`. */
  type EventHub<T> = Hub<Option<Bundle>, T>

  /** `Event.create(provider)`: a new event whose `translateContext` is
      `provider`, with no handlers. */
  function Create<T>(hub: EventHub<T>, provider: Option<Bundle> -> T): (r: (EventHub<T>, EmitterId))
    requires Valid(hub)
    ensures Valid(r.0) && Alive(r.0, r.1) && r.1 !in hub.emitters
    ensures r.0.emitters[r.1].subscribers == []
    ensures forall input :: r.0.emitters[r.1].translate(input) == provider(input)
    ensures forall x | x in hub.emitters :: x in r.0.emitters && r.0.emitters[x] == hub.emitters[x]
    ensures r.0.handlers == hub.handlers && r.0.calls == hub.calls
    ensures Grows(hub, r.0)
  {
    NewEmitter(hub, provider)
  }

  /** Emitting an event made by `create(provider)` runs every handler of its
      set once, each with `provider(context)`. Whatever operations have
      happened since (new handlers and events, connects, disconnects,
      emissions, clears), it still does so as long as it has not been
      reclaimed. */
  lemma EmitDeliversProvided<T>(hub: EventHub<T>, e: EmitterId, provider: Option<Bundle> -> T,
                                later: EventHub<T>, context: Option<Bundle>, h: HandlerId)
    requires Valid(hub) && e == Create(hub, provider).1
    requires Grows(Create(hub, provider).0, later) && Valid(later) && Alive(later, e)
    ensures var r := Emit(later, e, context);
      && CallsTo(r.calls[|later.calls|..], h) == (if Subscribed(later, e, h) then 1 else 0)
      && forall c | c in r.calls[|later.calls|..] :: c.context == provider(context)
  {
    var created := Create(hub, provider).0;
    assert later.emitters[e].translate == created.emitters[e].translate;
    EmitInvokesEachSubscriberOnce(later, e, context, h);
  }
}
