/** `Signal<T>(owner)`: an emitter whose handlers all receive the signal's
    fixed owner. `emit()` takes no input, so the context function ignores
    its argument. */
module Signals {
  import opened Base
  import opened Registry
  import opened Emitters

  /** A hub of signals with owner type `T`. */
  type SignalHub<T> = Hub<(), T>

  /** The owner a signal hands to its handlers. */
  function Owner<T>(hub: SignalHub<T>, s: EmitterId): T
    requires s in hub.emitters
  {
    hub.emitters[s].translate(())
  }

  /** The constructor `Signal(owner)`: a new signal with no handlers. */
  function New<T>(hub: SignalHub<T>, owner: T): (r: (SignalHub<T>, EmitterId))
    requires Valid(hub)
    ensures Valid(r.0) && Alive(r.0, r.1) && r.1 !in hub.emitters
    ensures r.0.emitters[r.1].subscribers == []
    ensures Owner(r.0, r.1) == owner
    ensures forall x | x in hub.emitters :: x in r.0.emitters && r.0.emitters[x] == hub.emitters[x]
    ensures r.0.handlers == hub.handlers && r.0.calls == hub.calls
    ensures Grows(hub, r.0)
  {
    NewEmitter(hub, (_: ()) => owner)
  }

  /** `emit()`: every handler of the set runs once, with the owner. */
  function EmitSignal<T>(hub: SignalHub<T>, s: EmitterId): (r: SignalHub<T>)
    requires Valid(hub) && Alive(hub, s)
    ensures Valid(r) && Frame(hub, r) && Grows(hub, r) && Alive(r, s)
    ensures |hub.calls| <= |r.calls| && r.calls[..|hub.calls|] == hub.calls
    ensures forall c | c in r.calls[|hub.calls|..] :: c.context == Owner(hub, s)
  {
    var r := Emit(hub, s, ());
    assert r.calls[|hub.calls|..] == CallsFor(hub.emitters[s].subscribers, Owner(hub, s));
    r
  }

  /** Each handler of the set runs exactly once per emission, and no other. */
  lemma EmitSignalOnce<T>(hub: SignalHub<T>, s: EmitterId, h: HandlerId)
    requires Valid(hub) && Alive(hub, s)
    ensures CallsTo(EmitSignal(hub, s).calls[|hub.calls|..], h) == if Subscribed(hub, s, h) then 1 else 0
  {
    EmitInvokesEachSubscriberOnce(hub, s, (), h);
  }

  /** The owner is fixed at construction: whatever operations follow (new
      handlers and signals, connects, disconnects, reconnects, emissions,
      clears), every emission of the signal, as long as it has not been
      reclaimed, hands its handlers the owner it was built with. */
  lemma OwnerNeverChanges<T>(hub: SignalHub<T>, owner: T, later: SignalHub<T>)
    requires Valid(hub)
    requires Grows(New(hub, owner).0, later) && Valid(later) && Alive(later, New(hub, owner).1)
    ensures var s := New(hub, owner).1;
      forall c | c in EmitSignal(later, s).calls[|later.calls|..] :: c.context == owner
  {
    var (created, s) := New(hub, owner);
    assert later.emitters[s].translate == created.emitters[s].translate;
  }
}
