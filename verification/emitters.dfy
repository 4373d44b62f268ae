/** The handler-subscription machinery shared by `Event<T>` and `Signal<T>`.

    Both classes hold an identity-keyed set of handlers, and each handler
    keeps a weak back-reference to the emitter it was last attached to. The
    two differ only in the value handed to handlers on emission: an event
    derives it from an optional `Bundle` through its `translateContext`, a
    signal always hands over its fixed owner. One emitter is therefore
    modelled, parameterised by its context function `translate: C -> T`.

    Object identity becomes an id into the maps of a `Hub`; the weak reference
    becomes the emitter's `alive` flag, which `Free` clears in place of the
    garbage collector; each run of a handler's callback is appended to
    `calls`, so that emission can be stated as a trace. */
module Emitters {
  import opened Base
  import opened Registry

  type EmitterId = nat

  /** A handler: the emitter its back-reference names, and its invocation policy. */
  datatype Handler = Handler(target: EmitterId, policy: Policy)

  /** An emitter: its handler set, whether it is still reachable, and the
      function that turns an emission's input into the handlers' context. */
  datatype Emitter<!C, T> = Emitter(subscribers: seq<HandlerId>, alive: bool, translate: C -> T)

  /** One run of a handler's callback, with the context it received. */
  datatype Call<T> = Call(handler: HandlerId, context: T)

  datatype Hub<!C, T> = Hub(
    emitters: map<EmitterId, Emitter<C, T>>,
    handlers: map<HandlerId, Handler>,
    calls: seq<Call<T>>,
    nextEmitter: nat,
    nextHandler: nat)

  /** Every id in use resolves, handler sets hold no duplicates, and the
      counters stay ahead of every id handed out. */
  ghost predicate Valid<C, T>(hub: Hub<C, T>) {
    && (forall e | e in hub.emitters :: e < hub.nextEmitter && NoDup(hub.emitters[e].subscribers))
    && (forall e, h | e in hub.emitters && h in hub.emitters[e].subscribers :: h in hub.handlers)
    && (forall h | h in hub.handlers :: h < hub.nextHandler && hub.handlers[h].target in hub.emitters)
  }

  /** The weak reference to `e` still yields the emitter. */
  predicate Alive<C, T>(hub: Hub<C, T>, e: EmitterId) {
    e in hub.emitters && hub.emitters[e].alive
  }

  /** `h` is in the handler set of `e`. */
  predicate Subscribed<C, T>(hub: Hub<C, T>, e: EmitterId, h: HandlerId) {
    e in hub.emitters && h in hub.emitters[e].subscribers
  }

  /** Nothing but handler sets, handler states and calls differ between `a` and `b`. */
  ghost predicate Frame<C, T>(a: Hub<C, T>, b: Hub<C, T>) {
    && a.emitters.Keys == b.emitters.Keys
    && (forall e | e in a.emitters :: b.emitters[e].alive == a.emitters[e].alive
                                      && b.emitters[e].translate == a.emitters[e].translate)
    && a.handlers.Keys == b.handlers.Keys
    && a.nextEmitter == b.nextEmitter
    && a.nextHandler == b.nextHandler
  }

  /** `b` is a later state of `a`: no emitter or handler has gone, every
      emitter keeps its context function, and an emitter once reclaimed
      stays reclaimed. Every operation of this module moves a hub forward in
      this order. */
  ghost predicate Grows<C, T>(a: Hub<C, T>, b: Hub<C, T>) {
    && a.emitters.Keys <= b.emitters.Keys
    && a.handlers.Keys <= b.handlers.Keys
    && forall e | e in a.emitters ::
         && b.emitters[e].translate == a.emitters[e].translate
         && (b.emitters[e].alive ==> a.emitters[e].alive)
  }

  lemma GrowsTrans<C, T>(a: Hub<C, T>, b: Hub<C, T>, c: Hub<C, T>)
    requires Grows(a, b) && Grows(b, c)
    ensures Grows(a, c)
  {
  }

  /** Every handler in the set of a live emitter names that emitter as its
      target. This is what lets a handler's `disconnect` reach every set it
      is in. */
  ghost predicate Coherent<C, T>(hub: Hub<C, T>) {
    forall e, h | Alive(hub, e) && Subscribed(hub, e, h) :: h in hub.handlers && hub.handlers[h].target == e
  }

  function Empty<C, T>(): (hub: Hub<C, T>)
    ensures Valid(hub) && Coherent(hub)
  {
    Hub(map[], map[], [], 0, 0)
  }

  function WithSubscribers<C, T>(hub: Hub<C, T>, e: EmitterId, s: seq<HandlerId>): Hub<C, T>
    requires e in hub.emitters
  {
    hub.(emitters := hub.emitters[e := hub.emitters[e].(subscribers := s)])
  }

  /** Replacing one handler set by a duplicate-free set of known handlers
      keeps the hub valid and changes no other set. */
  lemma WithSubscribersFacts<C, T>(hub: Hub<C, T>, e: EmitterId, s: seq<HandlerId>)
    requires Valid(hub) && e in hub.emitters && NoDup(s)
    requires forall g | g in s :: g in hub.handlers
    ensures var r := WithSubscribers(hub, e, s);
      && Valid(r) && Frame(hub, r)
      && r.handlers == hub.handlers && r.calls == hub.calls
      && (forall x, g :: Subscribed(r, x, g) <==> if x == e then g in s else Subscribed(hub, x, g))
      && (forall x | x in hub.emitters && x != e :: r.emitters[x] == hub.emitters[x])
  {
  }

  // ---------------------------------------------------------------------
  // Emitter and handler construction

  /** A new emitter (`Event.create`, or `Signal(owner)`): live, with no
      handlers, translating inputs with `translate`. */
  function NewEmitter<C, T>(hub: Hub<C, T>, translate: C -> T): (r: (Hub<C, T>, EmitterId))
    requires Valid(hub)
    ensures Grows(hub, r.0)
    ensures Valid(r.0)
    ensures r.1 !in hub.emitters && Alive(r.0, r.1)
    ensures r.0.emitters == hub.emitters[r.1 := Emitter([], true, translate)]
    ensures r.0.handlers == hub.handlers && r.0.calls == hub.calls
  {
    var e := hub.nextEmitter;
    (hub.(emitters := hub.emitters[e := Emitter([], true, translate)], nextEmitter := e + 1), e)
  }

  /** The garbage collector reclaiming an emitter: weak references to it now
      yield nothing. */
  function Free<C, T>(hub: Hub<C, T>, e: EmitterId): (r: Hub<C, T>)
    requires Valid(hub) && e in hub.emitters
    ensures Grows(hub, r)
    ensures Valid(r) && !Alive(r, e)
    ensures forall x | x != e :: Alive(r, x) == Alive(hub, x)
    ensures forall x, h :: Subscribed(r, x, h) == Subscribed(hub, x, h)
    ensures r.handlers == hub.handlers && r.calls == hub.calls
  {
    hub.(emitters := hub.emitters[e := hub.emitters[e].(alive := false)])
  }

  /** The handler constructor: it records `e` as the handler's target but
      does not put the handler into `e`'s set. */
  function NewHandler<C, T>(hub: Hub<C, T>, e: EmitterId, policy: Policy): (r: (Hub<C, T>, HandlerId))
    requires Valid(hub) && Alive(hub, e)
    ensures Grows(hub, r.0)
    ensures Valid(r.0)
    ensures r.1 !in hub.handlers
    ensures r.0.handlers == hub.handlers[r.1 := Handler(e, policy)]
    ensures r.0.emitters == hub.emitters && r.0.calls == hub.calls
    ensures forall x :: !Subscribed(r.0, x, r.1)
  {
    var h := hub.nextHandler;
    (hub.(handlers := hub.handlers[h := Handler(e, policy)], nextHandler := h + 1), h)
  }

  // ---------------------------------------------------------------------
  // Handler operations

  /** `handler.connect(to)`: retarget the back-reference to `to` and add the
      handler to `to`'s set; true iff it was not there yet. A disposable
      handler resets its counter first. The set of the emitter the handler
      was attached to before is left as it is. */
  function Connect<C, T>(hub: Hub<C, T>, h: HandlerId, to: EmitterId): (r: (Hub<C, T>, bool))
    requires Valid(hub) && h in hub.handlers && Alive(hub, to)
    ensures Grows(hub, r.0)
    ensures Valid(r.0) && Frame(hub, r.0) && r.0.calls == hub.calls
    ensures r.1 <==> !Subscribed(hub, to, h)
    ensures r.0.handlers == hub.handlers[h := Handler(to, Reset(hub.handlers[h].policy))]
    ensures forall x, g :: Subscribed(r.0, x, g) <==> Subscribed(hub, x, g) || (x == to && g == h)
    ensures forall x | x in hub.emitters && x != to :: r.0.emitters[x] == hub.emitters[x]
  {
    var (s, added) := Insert(hub.emitters[to].subscribers, h);
    var hub1 := WithSubscribers(hub, to, s);
    WithSubscribersFacts(hub, to, s);
    (hub1.(handlers := hub1.handlers[h := Handler(to, Reset(hub.handlers[h].policy))]), added)
  }

  /** `handler.disconnect()`: if the target is still reachable, remove the
      handler from its set and report whether it was there; otherwise report
      success and change nothing. The back-reference is kept. */
  function Disconnect<C, T>(hub: Hub<C, T>, h: HandlerId): (r: (Hub<C, T>, bool))
    requires Valid(hub) && h in hub.handlers
    ensures Grows(hub, r.0)
    ensures Valid(r.0) && Frame(hub, r.0)
    ensures r.0.handlers == hub.handlers && r.0.calls == hub.calls
    ensures var t := hub.handlers[h].target;
      Alive(hub, t) ==>
        && (r.1 <==> Subscribed(hub, t, h))
        && forall x, g :: Subscribed(r.0, x, g) <==> Subscribed(hub, x, g) && !(x == t && g == h)
    ensures !Alive(hub, hub.handlers[h].target) ==> r == (hub, true)
    ensures forall x | x in hub.emitters && x != hub.handlers[h].target :: r.0.emitters[x] == hub.emitters[x]
  {
    var t := hub.handlers[h].target;
    if Alive(hub, t) then
      var (s, removed) := Remove(hub.emitters[t].subscribers, h);
      WithSubscribersFacts(hub, t, s);
      (WithSubscribers(hub, t, s), removed)
    else
      (hub, true)
  }

  /** `handler.reconnect()`: connect again to the emitter the back-reference
      names, or fail without touching any set when it has been reclaimed. A
      disposable handler resets its counter first, whether or not the
      reconnection succeeds. */
  function Reconnect<C, T>(hub: Hub<C, T>, h: HandlerId): (r: (Hub<C, T>, bool))
    requires Valid(hub) && h in hub.handlers
    ensures Grows(hub, r.0)
    ensures Valid(r.0) && Frame(hub, r.0) && r.0.calls == hub.calls
    ensures var Handler(t, p) := hub.handlers[h];
      r.0.handlers == hub.handlers[h := Handler(t, Reset(p))]
    ensures var t := hub.handlers[h].target;
      Alive(hub, t) ==>
        && (r.1 <==> !Subscribed(hub, t, h))
        && forall x, g :: Subscribed(r.0, x, g) <==> Subscribed(hub, x, g) || (x == t && g == h)
    ensures !Alive(hub, hub.handlers[h].target) ==> !r.1 && r.0.emitters == hub.emitters
  {
    var Handler(t, p) := hub.handlers[h];
    var hub1 := hub.(handlers := hub.handlers[h := Handler(t, Reset(p))]);
    if Alive(hub1, t) then Connect(hub1, h, t) else (hub1, false)
  }

  /** `handler(context)`: run the callback, then, for a disposable handler,
      count the invocation and disconnect once the threshold is reached. */
  function Invoke<C, T>(hub: Hub<C, T>, h: HandlerId, context: T): (r: Hub<C, T>)
    requires Valid(hub) && h in hub.handlers
    ensures Grows(hub, r)
    ensures Valid(r) && Frame(hub, r)
    ensures r.calls == hub.calls + [Call(h, context)]
    ensures r.handlers == hub.handlers[h := hub.handlers[h].(policy := Bump(hub.handlers[h].policy).0)]
  {
    var Handler(t, p) := hub.handlers[h];
    var (p', stop) := Bump(p);
    var hub1 := hub.(calls := hub.calls + [Call(h, context)],
                     handlers := hub.handlers[h := Handler(t, p')]);
    if stop then Disconnect(hub1, h).0 else hub1
  }

  /** An invocation changes no set except that a disposable handler reaching
      its threshold leaves the set of its (still reachable) target. */
  lemma InvokeSubscriptions<C, T>(hub: Hub<C, T>, h: HandlerId, context: T, x: EmitterId, g: HandlerId)
    requires Valid(hub) && h in hub.handlers
    ensures Subscribed(Invoke(hub, h, context), x, g)
        <==> Subscribed(hub, x, g) && !SelfDetaches(hub, [h], x, g)
  {
  }

  // ---------------------------------------------------------------------
  // Emission

  /** The calls of one emission over `order`: one per handler, in order, all
      with the same context. */
  function CallsFor<T>(order: seq<HandlerId>, context: T): (r: seq<Call<T>>)
    ensures |r| == |order|
    ensures forall i | 0 <= i < |order| :: r[i] == Call(order[i], context)
    decreases |order|
  {
    if order == [] then [] else [Call(order[0], context)] + CallsFor(order[1..], context)
  }

  lemma CallsForStep<T>(calls: seq<Call<T>>, order: seq<HandlerId>, context: T)
    requires order != []
    ensures (calls + [Call(order[0], context)]) + CallsFor(order[1..], context) == calls + CallsFor(order, context)
  {
    assert CallsFor(order, context) == [Call(order[0], context)] + CallsFor(order[1..], context);
  }

  /** `g` is a handler of `order` that disconnects itself from `x` when it
      is invoked. */
  ghost predicate SelfDetaches<C, T>(hub: Hub<C, T>, order: seq<HandlerId>, x: EmitterId, g: HandlerId) {
    && g in order && g in hub.handlers
    && hub.handlers[g].target == x
    && Bump(hub.handlers[g].policy).1
    && Alive(hub, x)
  }

  /** Invoke every handler of a snapshot `order` once, in order. */
  function Visit<C, T>(hub: Hub<C, T>, order: seq<HandlerId>, context: T): (r: Hub<C, T>)
    requires Valid(hub) && NoDup(order)
    requires forall g | g in order :: g in hub.handlers
    ensures Valid(r) && Frame(hub, r)
    ensures r.calls == hub.calls + CallsFor(order, context)
    decreases |order|
  {
    if order == [] then hub
    else
      NoDupCons(order[0], order[1..]);
      assert order == [order[0]] + order[1..];
      var hub1 := Invoke(hub, order[0], context);
      CallsForStep(hub.calls, order, context);
      Visit(hub1, order[1..], context)
  }

  /** Over a visit every handler of the snapshot takes exactly one step of
      its policy and every other handler keeps its state. */
  lemma {:induction false} VisitSteps<C, T>(hub: Hub<C, T>, order: seq<HandlerId>, context: T)
    requires Valid(hub) && NoDup(order)
    requires forall g | g in order :: g in hub.handlers
    ensures forall g | g in hub.handlers ::
      Visit(hub, order, context).handlers[g]
        == if g in order then hub.handlers[g].(policy := Bump(hub.handlers[g].policy).0) else hub.handlers[g]
    decreases |order|
  {
    if order != [] {
      NoDupCons(order[0], order[1..]);
      assert order == [order[0]] + order[1..];
      VisitSteps(Invoke(hub, order[0], context), order[1..], context);
    }
  }

  /** Over a visit the only set changes are the self-disconnections of the
      disposable handlers of the snapshot. */
  lemma {:induction false} VisitSubscriptions<C, T>(hub: Hub<C, T>, order: seq<HandlerId>, context: T, x: EmitterId, g: HandlerId)
    requires Valid(hub) && NoDup(order)
    requires forall g | g in order :: g in hub.handlers
    ensures Subscribed(Visit(hub, order, context), x, g) <==> Subscribed(hub, x, g) && !SelfDetaches(hub, order, x, g)
    decreases |order|
  {
    if order != [] {
      NoDupCons(order[0], order[1..]);
      assert order == [order[0]] + order[1..];
      var a := order[0];
      var hub1 := Invoke(hub, a, context);
      assert Visit(hub, order, context) == Visit(hub1, order[1..], context);
      assert Alive(hub1, x) == Alive(hub, x);
      VisitSubscriptions(hub1, order[1..], context, x, g);
      InvokeSubscriptions(hub, a, context, x, g);
      if g == a {
        assert !SelfDetaches(hub1, order[1..], x, g);
        assert SelfDetaches(hub, order, x, g) <==> SelfDetaches(hub, [a], x, g);
      } else {
        SelfDetachesAfterOther(hub, a, order[1..], context, x, g);
      }
    }
  }

  lemma SelfDetachesAfterOther<C, T>(hub: Hub<C, T>, a: HandlerId, rest: seq<HandlerId>, context: T, x: EmitterId, g: HandlerId)
    requires Valid(hub) && a in hub.handlers && g != a
    ensures SelfDetaches(Invoke(hub, a, context), rest, x, g) <==> SelfDetaches(hub, [a] + rest, x, g)
  {
    var hub1 := Invoke(hub, a, context);
    assert Alive(hub1, x) == Alive(hub, x);
    if g in hub.handlers {
      assert hub1.handlers[g] == hub.handlers[g];
    }
  }

  /** `emit(input)`: visit a snapshot of the handler set, handing every
      handler `translate(input)`. */
  function Emit<C, T>(hub: Hub<C, T>, e: EmitterId, input: C): (r: Hub<C, T>)
    requires Valid(hub) && Alive(hub, e)
    ensures Grows(hub, r)
    ensures Valid(r) && Frame(hub, r) && Alive(r, e)
    ensures r.calls == hub.calls + CallsFor(hub.emitters[e].subscribers, hub.emitters[e].translate(input))
    ensures hub.emitters[e].subscribers == [] ==> r == hub
  {
    Visit(hub, hub.emitters[e].subscribers, hub.emitters[e].translate(input))
  }

  /** How many of `calls` ran handler `h`. */
  function CallsTo<T>(calls: seq<Call<T>>, h: HandlerId): nat
    decreases |calls|
  {
    if calls == [] then 0
    else (if calls[0].handler == h then 1 else 0) + CallsTo(calls[1..], h)
  }

  lemma {:induction false} CallsToAppend<T>(a: seq<Call<T>>, b: seq<Call<T>>, h: HandlerId)
    ensures CallsTo(a + b, h) == CallsTo(a, h) + CallsTo(b, h)
    decreases |a|
  {
    if a == [] {
      assert a + b == b;
    } else {
      assert (a + b)[0] == a[0];
      assert (a + b)[1..] == a[1..] + b;
      CallsToAppend(a[1..], b, h);
    }
  }

  lemma {:induction false} CallsToCallsFor<T>(order: seq<HandlerId>, context: T, h: HandlerId)
    requires NoDup(order)
    ensures CallsTo(CallsFor(order, context), h) == if h in order then 1 else 0
    decreases |order|
  {
    if order != [] {
      NoDupCons(order[0], order[1..]);
      assert order == [order[0]] + order[1..];
      CallsToCallsFor(order[1..], context, h);
      assert CallsFor(order, context)[1..] == CallsFor(order[1..], context);
    }
  }

  /** One emission runs every handler of the emitter's set exactly once and
      no other handler, and each of them receives `translate(input)`. With an
      empty set nothing happens. */
  lemma EmitInvokesEachSubscriberOnce<C, T>(hub: Hub<C, T>, e: EmitterId, input: C, h: HandlerId)
    requires Valid(hub) && Alive(hub, e)
    ensures var r := Emit(hub, e, input);
      && |hub.calls| <= |r.calls|
      && CallsTo(r.calls[|hub.calls|..], h) == (if Subscribed(hub, e, h) then 1 else 0)
      && forall c | c in r.calls[|hub.calls|..] :: c.context == hub.emitters[e].translate(input)
  {
    var r := Emit(hub, e, input);
    var order := hub.emitters[e].subscribers;
    assert r.calls[|hub.calls|..] == CallsFor(order, hub.emitters[e].translate(input));
    CallsToCallsFor(order, hub.emitters[e].translate(input), h);
  }

  /** Emission changes no set except for the self-disconnections of the
      disposable handlers of the emitter's set. */
  lemma EmitSubscriptions<C, T>(hub: Hub<C, T>, e: EmitterId, input: C, x: EmitterId, g: HandlerId)
    requires Valid(hub) && Alive(hub, e)
    ensures Subscribed(Emit(hub, e, input), x, g)
        <==> Subscribed(hub, x, g) && !SelfDetaches(hub, hub.emitters[e].subscribers, x, g)
  {
    VisitSubscriptions(hub, hub.emitters[e].subscribers, hub.emitters[e].translate(input), x, g);
  }

  // ---------------------------------------------------------------------
  // Emitter operations built on the handler operations

  /** The lambda overloads `connect { ... }` and `invoke { ... }`, and the
      disposable variant: construct a handler on `e` with the given policy and
      connect it. The new handler is in `e`'s set and names `e` as target;
      every other membership is unchanged. */
  function ConnectNew<C, T>(hub: Hub<C, T>, e: EmitterId, policy: Policy): (r: (Hub<C, T>, HandlerId))
    requires Valid(hub) && Alive(hub, e)
    ensures Grows(hub, r.0)
    ensures Valid(r.0) && r.0.calls == hub.calls
    ensures r.1 !in hub.handlers
    ensures r.0.handlers == hub.handlers[r.1 := Handler(e, Reset(policy))]
    ensures Subscribed(r.0, e, r.1)
    ensures forall x, g | g != r.1 :: Subscribed(r.0, x, g) <==> Subscribed(hub, x, g)
    ensures forall x | x in hub.emitters :: x in r.0.emitters && Alive(r.0, x) == Alive(hub, x)
  {
    var (hub1, h) := NewHandler(hub, e, policy);
    (Connect(hub1, h, e).0, h)
  }

  /** Disconnect every handler of a snapshot `order`, each through its own
      back-reference. */
  function DisconnectAll<C, T>(hub: Hub<C, T>, order: seq<HandlerId>): (r: Hub<C, T>)
    requires Valid(hub)
    requires forall g | g in order :: g in hub.handlers
    ensures Valid(r) && Frame(hub, r)
    ensures r.handlers == hub.handlers && r.calls == hub.calls
    decreases |order|
  {
    if order == [] then hub
    else DisconnectAll(Disconnect(hub, order[0]).0, order[1..])
  }

  /** `g` is a handler of `order` whose back-reference names the live `x`. */
  ghost predicate Detaches<C, T>(hub: Hub<C, T>, order: seq<HandlerId>, x: EmitterId, g: HandlerId) {
    g in order && g in hub.handlers && hub.handlers[g].target == x && Alive(hub, x)
  }

  lemma {:induction false} DisconnectAllSubscriptions<C, T>(hub: Hub<C, T>, order: seq<HandlerId>, x: EmitterId, g: HandlerId)
    requires Valid(hub)
    requires forall g | g in order :: g in hub.handlers
    ensures Subscribed(DisconnectAll(hub, order), x, g) <==> Subscribed(hub, x, g) && !Detaches(hub, order, x, g)
    decreases |order|
  {
    if order != [] {
      var hub1 := Disconnect(hub, order[0]).0;
      assert Alive(hub1, x) == Alive(hub, x);
      DisconnectAllSubscriptions(hub1, order[1..], x, g);
      assert order == [order[0]] + order[1..];
    }
  }

  /** `clearHandlers()`: disconnect every handler of a snapshot of `e`'s set. */
  function ClearHandlers<C, T>(hub: Hub<C, T>, e: EmitterId): (r: Hub<C, T>)
    requires Valid(hub) && Alive(hub, e)
    ensures Grows(hub, r)
    ensures Valid(r) && Frame(hub, r)
    ensures r.handlers == hub.handlers && r.calls == hub.calls
    ensures forall x, g :: Subscribed(r, x, g) ==> Subscribed(hub, x, g)
  {
    var r := DisconnectAll(hub, hub.emitters[e].subscribers);
    assert forall x, g :: Subscribed(r, x, g) ==> Subscribed(hub, x, g) by {
      forall x, g | Subscribed(r, x, g) ensures Subscribed(hub, x, g) {
        DisconnectAllSubscriptions(hub, hub.emitters[e].subscribers, x, g);
      }
    }
    r
  }

  /** When every handler in `e`'s set names `e` as its target, clearing
      leaves the set empty. */
  lemma ClearHandlersEmpties<C, T>(hub: Hub<C, T>, e: EmitterId)
    requires Valid(hub) && Alive(hub, e)
    requires forall g | g in hub.emitters[e].subscribers :: hub.handlers[g].target == e
    ensures ClearHandlers(hub, e).emitters[e].subscribers == []
  {
    var r := ClearHandlers(hub, e);
    var s := r.emitters[e].subscribers;
    if s != [] {
      DisconnectAllSubscriptions(hub, hub.emitters[e].subscribers, e, s[0]);
      assert false;
    }
  }

  /** Disconnecting handlers that are in no live target's set changes nothing. */
  lemma {:induction false} DisconnectAllAbsent<C, T>(hub: Hub<C, T>, order: seq<HandlerId>)
    requires Valid(hub)
    requires forall g | g in order :: g in hub.handlers
    requires forall g | g in order :: Alive(hub, hub.handlers[g].target) ==> !Subscribed(hub, hub.handlers[g].target, g)
    ensures DisconnectAll(hub, order) == hub
    decreases |order|
  {
    if order != [] {
      var g := order[0];
      var t := hub.handlers[g].target;
      if Alive(hub, t) {
        var em := hub.emitters[t];
        assert Remove(em.subscribers, g).0 == em.subscribers;
        assert em.(subscribers := em.subscribers) == em;
        assert hub.emitters[t := em] == hub.emitters;
      }
      assert Disconnect(hub, g).0 == hub;
      DisconnectAllAbsent(hub, order[1..]);
    }
  }

  /** `clearHandlers()` is idempotent: a second call changes nothing. */
  lemma ClearHandlersIdempotent<C, T>(hub: Hub<C, T>, e: EmitterId)
    requires Valid(hub) && Alive(hub, e)
    ensures ClearHandlers(ClearHandlers(hub, e), e) == ClearHandlers(hub, e)
  {
    var order := hub.emitters[e].subscribers;
    var r := ClearHandlers(hub, e);
    var order2 := r.emitters[e].subscribers;
    forall g | g in order2 ensures Alive(r, r.handlers[g].target) ==> !Subscribed(r, r.handlers[g].target, g) {
      var t := hub.handlers[g].target;
      DisconnectAllSubscriptions(hub, order, e, g);
      DisconnectAllSubscriptions(hub, order, t, g);
    }
    DisconnectAllAbsent(r, order2);
  }

  /** The corrected `connect(to)`: first leave the emitter the
      back-reference names when that is another one, so that a later
      `disconnect` reaches every set the handler is in. The reply is the
      source's: true iff the handler was not in `to`'s set. */
  function ConnectExclusive<C, T>(hub: Hub<C, T>, h: HandlerId, to: EmitterId): (r: (Hub<C, T>, bool))
    requires Valid(hub) && h in hub.handlers && Alive(hub, to)
    ensures Grows(hub, r.0)
    ensures Valid(r.0) && Frame(hub, r.0) && r.0.calls == hub.calls
    ensures r.1 <==> !Subscribed(hub, to, h)
    ensures r.0.handlers == hub.handlers[h := Handler(to, Reset(hub.handlers[h].policy))]
    ensures Subscribed(r.0, to, h)
    ensures forall x | x != to && Alive(hub, x) :: Subscribed(r.0, x, h) ==> Subscribed(hub, x, h) && x != hub.handlers[h].target
  {
    var t := hub.handlers[h].target;
    var hub1 := if t != to then Disconnect(hub, h).0 else hub;
    Connect(hub1, h, to)
  }

  /** When the back-reference already names `to`, as it does for a new
      handler and for `reconnect`, the corrected connect is the source's. */
  lemma ConnectExclusiveAgrees<C, T>(hub: Hub<C, T>, h: HandlerId)
    requires Valid(hub) && h in hub.handlers && Alive(hub, hub.handlers[h].target)
    ensures ConnectExclusive(hub, h, hub.handlers[h].target) == Connect(hub, h, hub.handlers[h].target)
  {
  }
}
