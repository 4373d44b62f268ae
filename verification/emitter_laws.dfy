/** Properties of the subscription machinery that relate several operations:
    repeated emission against disposable handlers, disconnect followed by
    emit or reconnect, and the coherence of back-references with handler
    sets. */
module EmitterLaws {
  import opened Base
  import opened Registry
  import opened Emitters

  function Min(a: int, b: int): int {
    if a <= b then a else b
  }

  /** `hubs` are the states of successive emissions of `e`, the `i`-th of
      them with input `inputs[i]`: each is the emission of `e` from the one
      before. Stated from the last emission backwards, so that an induction
      over the chain peels off one emission at a time. */
  ghost predicate EmitChain<C, T>(hubs: seq<Hub<C, T>>, e: EmitterId, inputs: seq<C>)
    decreases |hubs|
  {
    && |hubs| >= 1 && |inputs| == |hubs| - 1
    && Valid(hubs[0]) && Alive(hubs[0], e)
    && (|hubs| > 1 ==>
         && EmitChain(hubs[..|hubs| - 1], e, inputs[..|inputs| - 1])
         && EmitStep(hubs[|hubs| - 2], hubs[|hubs| - 1], e, inputs[|inputs| - 1]))
  }

  /** `b` is the emission of `e` from `a` with `input`. */
  ghost predicate EmitStep<C, T>(a: Hub<C, T>, b: Hub<C, T>, e: EmitterId, input: C) {
    Valid(a) && Alive(a, e) && b == Emit(a, e, input)
  }

  /** Every link of a chain is an emission of `e` with its own input, and
      along the chain the hub stays valid, the emitter stays alive, no
      handler is created and the trace only grows. */
  lemma {:induction false} EmitChainFacts<C, T>(hubs: seq<Hub<C, T>>, e: EmitterId, inputs: seq<C>, i: nat)
    requires EmitChain(hubs, e, inputs) && i < |hubs|
    ensures i + 1 < |hubs| ==> EmitStep(hubs[i], hubs[i + 1], e, inputs[i])
    ensures Valid(hubs[i]) && Alive(hubs[i], e)
    ensures hubs[i].handlers.Keys == hubs[0].handlers.Keys
    ensures hubs[0].calls <= hubs[i].calls
    decreases |hubs|
  {
    if |hubs| > 1 {
      var init := hubs[..|hubs| - 1];
      if i + 1 < |hubs| {
        EmitChainFacts(init, e, inputs[..|inputs| - 1], i);
        if i + 2 < |hubs| {
          assert init[i + 1] == hubs[i + 1];
        }
      } else {
        EmitChainFacts(init, e, inputs[..|inputs| - 1], i - 1);
        var prev := hubs[i - 1];
        assert Frame(prev, hubs[i]) && prev.calls <= hubs[i].calls;
      }
    }
  }

  /** Splits a chain of more than one hub into the chain before the last
      emission and that last emission. */
  lemma EmitChainInit<C, T>(hubs: seq<Hub<C, T>>, e: EmitterId, inputs: seq<C>)
      returns (init: seq<Hub<C, T>>, ins: seq<C>, prev: Hub<C, T>, last: Hub<C, T>, input: C)
    requires EmitChain(hubs, e, inputs) && |hubs| > 1
    ensures init == hubs[..|hubs| - 1] && ins == inputs[..|inputs| - 1]
    ensures EmitChain(init, e, ins) && |init| == |hubs| - 1
    ensures init[0] == hubs[0] && init[|init| - 1] == prev && last == hubs[|hubs| - 1]
    ensures EmitStep(prev, last, e, input)
  {
    init, ins := hubs[..|hubs| - 1], inputs[..|inputs| - 1];
    prev, last, input := hubs[|hubs| - 2], hubs[|hubs| - 1], inputs[|inputs| - 1];
  }

  /** A disposable handler of `e` with `count <= disconnectAfter`, in the set
      exactly while below its threshold. */
  ghost predicate CountingOn<C, T>(hub: Hub<C, T>, e: EmitterId, h: HandlerId) {
    && h in hub.handlers
    && hub.handlers[h].target == e
    && hub.handlers[h].policy.Disposable?
    && 0 <= hub.handlers[h].policy.count <= hub.handlers[h].policy.disconnectAfter
    && (Subscribed(hub, e, h) <==> hub.handlers[h].policy.count < hub.handlers[h].policy.disconnectAfter)
  }

  /** One emission of `e` runs a counting handler once if it is below its
      threshold, counts the run, and drops it from the set on reaching it. */
  lemma DisposableEmitStep<C, T>(hub: Hub<C, T>, e: EmitterId, input: C, h: HandlerId)
    requires Valid(hub) && Alive(hub, e) && CountingOn(hub, e, h)
    ensures var r := Emit(hub, e, input);
      var Disposable(c, n) := hub.handlers[h].policy;
      && CallsTo(r.calls[|hub.calls|..], h) == (if c < n then 1 else 0)
      && r.handlers[h] == Handler(e, Disposable(if c < n then c + 1 else c, n))
      && (Subscribed(r, e, h) <==> c as int + 1 < n as int)
      && CountingOn(r, e, h)
  {
    var order := hub.emitters[e].subscribers;
    EmitInvokesEachSubscriberOnce(hub, e, input, h);
    VisitSteps(hub, order, hub.emitters[e].translate(input));
    EmitSubscriptions(hub, e, input, e, h);
  }

  /** The counter state of a counting handler with count `c` and threshold
      `n` after `k` emissions. */
  function CountAfter(c: Int32, n: Int32, k: nat): (r: Policy)
    requires 0 <= c <= n
    ensures r.Disposable? && r.disconnectAfter == n && c <= r.count <= n
    ensures r.count == n || r.count as int == c as int + k
  {
    Disposable((c as int + Min(k, n as int - c as int)) as Int32, n)
  }

  /** The `k`-th emission of a chain, seen from the handler. */
  lemma DisposableChainStep<C, T>(prev: Hub<C, T>, last: Hub<C, T>, e: EmitterId, input: C, h: HandlerId, c: Int32, n: Int32, k: nat)
    requires EmitStep(prev, last, e, input)
    requires k >= 1 && 0 <= c <= n && CountingOn(prev, e, h)
    requires prev.handlers[h] == Handler(e, CountAfter(c, n, k - 1))
    ensures CountingOn(last, e, h)
    ensures last.handlers[h] == Handler(e, CountAfter(c, n, k))
    ensures Subscribed(last, e, h) <==> c as int + k < n as int
    ensures prev.calls <= last.calls
    ensures CallsTo(last.calls[|prev.calls|..], h) + Min(k - 1, n as int - c as int) == Min(k, n as int - c as int)
  {
    DisposableEmitStep(prev, e, input, h);
  }

  /** After `k` emissions a counting handler with count `c` and threshold
      `n` has counted `min(k, n - c)` more runs, and is in the set iff
      `c + k < n`. */
  lemma {:induction false} DisposableStateAfter<C, T>(hubs: seq<Hub<C, T>>, e: EmitterId, inputs: seq<C>, h: HandlerId, c: Int32, n: Int32)
    requires EmitChain(hubs, e, inputs) && CountingOn(hubs[0], e, h)
    requires hubs[0].handlers[h].policy == Disposable(c, n)
    ensures CountingOn(hubs[|hubs| - 1], e, h)
    ensures hubs[|hubs| - 1].handlers[h] == Handler(e, CountAfter(c, n, |hubs| - 1))
    ensures Subscribed(hubs[|hubs| - 1], e, h) <==> c as int + |hubs| - 1 < n as int
    decreases |hubs|
  {
    if |hubs| == 1 {
      assert CountAfter(c, n, 0) == Disposable(c, n);
    } else {
      var init, ins, prev, last, input := EmitChainInit(hubs, e, inputs);
      DisposableStateAfter(init, e, ins, h, c, n);
      DisposableChainStep(prev, last, e, input, h, c, n, |hubs| - 1);
    }
  }

  /** Over `k` emissions a counting handler with count `c` and threshold `n`
      runs `min(k, n - c)` times. */
  lemma {:induction false} DisposableRunsUpToThreshold<C, T>(hubs: seq<Hub<C, T>>, e: EmitterId, inputs: seq<C>, h: HandlerId, c: Int32, n: Int32)
    requires EmitChain(hubs, e, inputs) && CountingOn(hubs[0], e, h)
    requires hubs[0].handlers[h].policy == Disposable(c, n)
    ensures hubs[0].calls <= hubs[|hubs| - 1].calls
    ensures CallsTo(hubs[|hubs| - 1].calls[|hubs[0].calls|..], h) == Min(|hubs| - 1, n as int - c as int)
    decreases |hubs|
  {
    if |hubs| == 1 {
      assert hubs[0].calls[|hubs[0].calls|..] == [];
      assert CallsTo(hubs[0].calls[|hubs[0].calls|..], h) == 0;
    } else {
      var init, ins, prev, last, input := EmitChainInit(hubs, e, inputs);
      DisposableRunsUpToThreshold(init, e, ins, h, c, n);
      DisposableStateAfter(init, e, ins, h, c, n);
      DisposableRunsOneMore(hubs[0].calls, prev, last, e, input, h, c, n, |hubs| - 1);
    }
  }

  /** One more emission adds the `k`-th term to the run count of a counting
      handler. */
  lemma DisposableRunsOneMore<C, T>(first: seq<Call<T>>, prev: Hub<C, T>, last: Hub<C, T>, e: EmitterId, input: C, h: HandlerId, c: Int32, n: Int32, k: nat)
    requires EmitStep(prev, last, e, input)
    requires k >= 1 && 0 <= c <= n && CountingOn(prev, e, h)
    requires prev.handlers[h] == Handler(e, CountAfter(c, n, k - 1))
    requires first <= prev.calls && CallsTo(prev.calls[|first|..], h) == Min(k - 1, n as int - c as int)
    ensures first <= last.calls
    ensures CallsTo(last.calls[|first|..], h) == Min(k, n as int - c as int)
  {
    DisposableChainStep(prev, last, e, input, h, c, n, k);
    CountSplit(first, prev.calls, last.calls, h);
  }

  lemma CountSplit<T>(a: seq<Call<T>>, b: seq<Call<T>>, c: seq<Call<T>>, h: HandlerId)
    requires a <= b <= c
    ensures CallsTo(c[|a|..], h) == CallsTo(b[|a|..], h) + CallsTo(c[|b|..], h)
  {
    assert c[|a|..] == b[|a|..] + c[|b|..];
    CallsToAppend(b[|a|..], c[|b|..], h);
  }

  /** The disposable overload with `disconnectAfter = n >= 1`: over `k`
      emissions the callback runs `min(k, n)` times, and after `n` emissions
      the handler is no longer in the set. */
  lemma ConnectDisposableRunsExactly<C, T>(hub: Hub<C, T>, e: EmitterId, n: Int32, hubs: seq<Hub<C, T>>, inputs: seq<C>)
    requires Valid(hub) && Alive(hub, e) && n >= 1
    requires EmitChain(hubs, e, inputs) && hubs[0] == ConnectNew(hub, e, Disposable(0, n)).0
    ensures var h := ConnectNew(hub, e, Disposable(0, n)).1;
      var last := hubs[|hubs| - 1];
      && hubs[0].calls <= last.calls
      && CallsTo(last.calls[|hubs[0].calls|..], h) == Min(|hubs| - 1, n as int)
      && (|hubs| - 1 >= n as int <==> !Subscribed(last, e, h))
  {
    var h := ConnectNewCounting(hub, e, n);
    DisposableRunsUpToThreshold(hubs, e, inputs, h, 0, n);
    DisposableStateAfter(hubs, e, inputs, h, 0, n);
  }

  /** The handler `connectDisposable(n)` returns starts counting from 0. */
  lemma ConnectNewCounting<C, T>(hub: Hub<C, T>, e: EmitterId, n: Int32) returns (h: HandlerId)
    requires Valid(hub) && Alive(hub, e) && n >= 1
    ensures h == ConnectNew(hub, e, Disposable(0, n)).1
    ensures CountingOn(ConnectNew(hub, e, Disposable(0, n)).0, e, h)
    ensures ConnectNew(hub, e, Disposable(0, n)).0.handlers[h].policy == Disposable(0, n)
  {
    h := ConnectNew(hub, e, Disposable(0, n)).1;
  }

  /** A disposable handler with `disconnectAfter <= 1` leaves the set after
      its first run. */
  lemma DisposableAtMostOnce<C, T>(hub: Hub<C, T>, e: EmitterId, input: C, h: HandlerId)
    requires Valid(hub) && Alive(hub, e) && Subscribed(hub, e, h)
    requires hub.handlers[h].target == e
    requires hub.handlers[h].policy.Disposable? && hub.handlers[h].policy.count == 0
    requires hub.handlers[h].policy.disconnectAfter <= 1
    ensures var r := Emit(hub, e, input);
      CallsTo(r.calls[|hub.calls|..], h) == 1 && !Subscribed(r, e, h)
  {
    EmitInvokesEachSubscriberOnce(hub, e, input, h);
    EmitSubscriptions(hub, e, input, e, h);
  }

  // ---------------------------------------------------------------------
  // Disconnect, reconnect and coherence

  /** In a coherent hub a disconnected handler is in no live set, so no
      later emission runs it. */
  lemma DisconnectSilences<C, T>(hub: Hub<C, T>, h: HandlerId, x: EmitterId, input: C)
    requires Valid(hub) && Coherent(hub) && h in hub.handlers && Alive(hub, x)
    ensures var r := Disconnect(hub, h).0;
      !Subscribed(r, x, h) && CallsTo(Emit(r, x, input).calls[|r.calls|..], h) == 0
  {
    var r := Disconnect(hub, h).0;
    EmitInvokesEachSubscriberOnce(r, x, input, h);
  }

  /** `disconnect()` then `reconnect()` restores exactly the memberships
      there were, and the next emission of the target runs the handler once. */
  lemma DisconnectThenReconnect<C, T>(hub: Hub<C, T>, h: HandlerId, input: C)
    requires Valid(hub) && h in hub.handlers
    requires Alive(hub, hub.handlers[h].target) && Subscribed(hub, hub.handlers[h].target, h)
    ensures var t := hub.handlers[h].target;
      var (r1, ok1) := Disconnect(hub, h);
      var (r2, ok2) := Reconnect(r1, h);
      && ok1 && ok2
      && (forall x, g :: Subscribed(r2, x, g) <==> Subscribed(hub, x, g))
      && CallsTo(Emit(r2, t, input).calls[|r2.calls|..], h) == 1
  {
    var t := hub.handlers[h].target;
    var (r1, _) := Disconnect(hub, h);
    var (r2, _) := Reconnect(r1, h);
    EmitInvokesEachSubscriberOnce(r2, t, input, h);
  }

  lemma EmitKeepsCoherent<C, T>(hub: Hub<C, T>, e: EmitterId, input: C)
    requires Valid(hub) && Alive(hub, e) && Coherent(hub)
    ensures Coherent(Emit(hub, e, input))
  {
    var r := Emit(hub, e, input);
    VisitSteps(hub, hub.emitters[e].subscribers, hub.emitters[e].translate(input));
    forall x, g | Alive(r, x) && Subscribed(r, x, g) ensures g in r.handlers && r.handlers[g].target == x {
      EmitSubscriptions(hub, e, input, x, g);
    }
  }

  lemma ReconnectKeepsCoherent<C, T>(hub: Hub<C, T>, h: HandlerId)
    requires Valid(hub) && h in hub.handlers && Coherent(hub)
    ensures Coherent(Reconnect(hub, h).0)
  {
    var r := Reconnect(hub, h).0;
    forall x, g | Alive(r, x) && Subscribed(r, x, g) ensures g in r.handlers && r.handlers[g].target == x {
      assert Alive(hub, x);
      if g != h {
        assert Subscribed(hub, x, g);
      }
    }
  }

  lemma ConnectNewKeepsCoherent<C, T>(hub: Hub<C, T>, e: EmitterId, policy: Policy)
    requires Valid(hub) && Alive(hub, e) && Coherent(hub)
    ensures Coherent(ConnectNew(hub, e, policy).0)
  {
    var (r, h) := ConnectNew(hub, e, policy);
    forall x, g | Alive(r, x) && Subscribed(r, x, g) ensures g in r.handlers && r.handlers[g].target == x {
      assert Alive(hub, x);
      if g != h {
        assert Subscribed(hub, x, g);
      }
    }
  }

  /** `Event.create` and `Signal(owner)` keep every back-reference coherent. */
  lemma NewEmitterKeepsCoherent<C, T>(hub: Hub<C, T>, translate: C -> T)
    requires Valid(hub) && Coherent(hub)
    ensures Coherent(NewEmitter(hub, translate).0)
  {
    var (r, e) := NewEmitter(hub, translate);
    forall x, g | Alive(r, x) && Subscribed(r, x, g) ensures g in r.handlers && r.handlers[g].target == x {
      assert x != e && Alive(hub, x) && Subscribed(hub, x, g);
    }
  }

  /** Constructing a handler joins no set, so coherence is kept. */
  lemma NewHandlerKeepsCoherent<C, T>(hub: Hub<C, T>, e: EmitterId, policy: Policy)
    requires Valid(hub) && Alive(hub, e) && Coherent(hub)
    ensures Coherent(NewHandler(hub, e, policy).0)
  {
    var (r, h) := NewHandler(hub, e, policy);
    forall x, g | Alive(r, x) && Subscribed(r, x, g) ensures g in r.handlers && r.handlers[g].target == x {
      assert g != h && Subscribed(hub, x, g);
    }
  }

  /** Reclaiming an emitter keeps coherence. */
  lemma FreeKeepsCoherent<C, T>(hub: Hub<C, T>, e: EmitterId)
    requires Valid(hub) && e in hub.emitters && Coherent(hub)
    ensures Coherent(Free(hub, e))
  {
    var r := Free(hub, e);
    forall x, g | Alive(r, x) && Subscribed(r, x, g) ensures g in r.handlers && r.handlers[g].target == x {
      assert x != e && Alive(hub, x) && Subscribed(hub, x, g);
    }
  }

  /** `disconnect()` only removes a membership, so coherence is kept. */
  lemma DisconnectKeepsCoherent<C, T>(hub: Hub<C, T>, h: HandlerId)
    requires Valid(hub) && h in hub.handlers && Coherent(hub)
    ensures Coherent(Disconnect(hub, h).0)
  {
    var r := Disconnect(hub, h).0;
    forall x, g | Alive(r, x) && Subscribed(r, x, g) ensures g in r.handlers && r.handlers[g].target == x {
      assert Alive(hub, x) && Subscribed(hub, x, g);
    }
  }

  /** `clearHandlers()` only removes memberships, so coherence is kept. */
  lemma ClearHandlersKeepsCoherent<C, T>(hub: Hub<C, T>, e: EmitterId)
    requires Valid(hub) && Alive(hub, e) && Coherent(hub)
    ensures Coherent(ClearHandlers(hub, e))
  {
    var r := ClearHandlers(hub, e);
    forall x, g | Alive(r, x) && Subscribed(r, x, g) ensures g in r.handlers && r.handlers[g].target == x {
      assert Alive(hub, x) && Subscribed(hub, x, g);
    }
  }

  /** The source's `connect(to)` on a handler that is in the set of another
      live emitter `a` leaves it there: the hub stops being coherent, a later
      `disconnect()` does not take it out of `a`, `a`'s emissions keep
      running it, and `a.clearHandlers()` does not remove it either. */
  lemma SwitchLeavesStaleSubscription<C, T>(hub: Hub<C, T>, h: HandlerId, a: EmitterId, b: EmitterId, input: C)
    requires Valid(hub) && h in hub.handlers && Alive(hub, a) && Alive(hub, b) && a != b
    requires Subscribed(hub, a, h)
    ensures var r1 := Connect(hub, h, b).0;
      var r2 := Disconnect(r1, h).0;
      && !Coherent(r1)
      && Subscribed(r2, a, h)
      && CallsTo(Emit(r2, a, input).calls[|r2.calls|..], h) == 1
      && Subscribed(ClearHandlers(r1, a), a, h)
  {
    var r1 := Connect(hub, h, b).0;
    var r2 := Disconnect(r1, h).0;
    EmitInvokesEachSubscriberOnce(r2, a, input, h);
    DisconnectAllSubscriptions(r1, r1.emitters[a].subscribers, a, h);
  }

  /** The corrected connect keeps every handler in at most one live set: the
      one its back-reference names. */
  lemma ConnectExclusiveKeepsCoherent<C, T>(hub: Hub<C, T>, h: HandlerId, to: EmitterId)
    requires Valid(hub) && h in hub.handlers && Alive(hub, to) && Coherent(hub)
    ensures Coherent(ConnectExclusive(hub, h, to).0)
  {
    var r := ConnectExclusive(hub, h, to).0;
    forall x, g | Alive(r, x) && Subscribed(r, x, g) ensures g in r.handlers && r.handlers[g].target == x {
      assert Alive(hub, x);
      if g != h {
        var t := hub.handlers[h].target;
        var hub1 := if t != to then Disconnect(hub, h).0 else hub;
        assert Subscribed(hub1, x, g);
        assert Subscribed(hub, x, g);
      }
    }
  }

  /** With the corrected connect, switching emitters and then disconnecting
      silences the handler everywhere. */
  lemma ExclusiveSwitchThenDisconnect<C, T>(hub: Hub<C, T>, h: HandlerId, to: EmitterId, x: EmitterId, input: C)
    requires Valid(hub) && h in hub.handlers && Alive(hub, to) && Alive(hub, x) && Coherent(hub)
    ensures var r1 := ConnectExclusive(hub, h, to).0;
      var r2 := Disconnect(r1, h).0;
      && !Subscribed(r2, x, h)
      && CallsTo(Emit(r2, x, input).calls[|r2.calls|..], h) == 0
  {
    var r1 := ConnectExclusive(hub, h, to).0;
    ConnectExclusiveKeepsCoherent(hub, h, to);
    DisconnectSilences(r1, h, x, input);
  }

  /** With the corrected connect, clearing any live emitter afterwards
      empties its set. */
  lemma ExclusiveSwitchThenClear<C, T>(hub: Hub<C, T>, h: HandlerId, to: EmitterId, x: EmitterId)
    requires Valid(hub) && h in hub.handlers && Alive(hub, to) && Alive(hub, x) && Coherent(hub)
    ensures ClearHandlers(ConnectExclusive(hub, h, to).0, x).emitters[x].subscribers == []
  {
    var r1 := ConnectExclusive(hub, h, to).0;
    ConnectExclusiveKeepsCoherent(hub, h, to);
    CoherentClearEmpties(r1, x);
  }

  /** In a coherent hub clearing a live emitter empties its set. */
  lemma CoherentClearEmpties<C, T>(hub: Hub<C, T>, x: EmitterId)
    requires Valid(hub) && Alive(hub, x) && Coherent(hub)
    ensures ClearHandlers(hub, x).emitters[x].subscribers == []
  {
    forall g | g in hub.emitters[x].subscribers ensures hub.handlers[g].target == x {
      assert Subscribed(hub, x, g);
    }
    ClearHandlersEmpties(hub, x);
  }
}
