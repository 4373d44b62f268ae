/** The non-generic `solid.events.SignalHandler`: a callback plus a nullable
    reference to the signal it is connected to, and the disposable variant
    `Signal.connectDisposable` builds from it. The non-generic `Signal`
    class itself is not part of this model, so its `disconnect(handler)` is
    left abstract: what it replies and whether it clears the handler's
    `connectedTo` are a parameter, and a call to it is recorded as a request
    naming the signal. */
module BareHandlers {
  import opened Base

  /** The identity of a non-generic signal. */
  type SignalRef = nat

  datatype BareHandler = BareHandler(connectedTo: Option<SignalRef>, policy: Policy)

  /** What the non-generic `Signal.disconnect(handler)` does when it is
      asked: the value it returns, and whether it resets the handler's
      `connectedTo` to null. */
  datatype SignalSide = SignalSide(reply: bool, clears: bool)

  /** What one operation did outside the handler: how many times it ran the
      callback and which signal, if any, it asked to drop the handler. */
  datatype Effects = Effects(callbackRuns: nat, disconnectRequest: Option<SignalRef>)

  /** The constructor: not connected to any signal. */
  function New(): (r: BareHandler)
    ensures !Connected(r) && r.policy.Plain?
  {
    BareHandler(None, Plain)
  }

  /** The `connected` property. */
  function Connected(h: BareHandler): (r: bool)
    ensures r <==> h.connectedTo != None
  {
    h.connectedTo.Some?
  }

  /** `disconnect()`: ask the connected signal to drop the handler and pass
      on its reply, or report success when there is no signal. The handler
      comes back as the signal leaves it. */
  function Disconnect(h: BareHandler, side: SignalSide): (r: (BareHandler, bool, Effects))
    ensures r.2.callbackRuns == 0 && r.0.policy == h.policy
    ensures !Connected(h) ==> r.0 == h && r.1 && r.2.disconnectRequest == None
    ensures Connected(h) ==> r.1 == side.reply && r.2.disconnectRequest == Some(h.connectedTo.value)
    ensures Connected(h) ==> (Connected(r.0) <==> !side.clears)
    ensures !side.clears ==> r.0 == h
  {
    match h.connectedTo
    case None => (h, true, Effects(0, None))
    case Some(s) => (if side.clears then h.(connectedTo := None) else h, side.reply, Effects(0, Some(s)))
  }

  /** `invoke()`: run the callback once; a disposable handler then counts the
      run and disconnects itself once the count reaches its threshold. */
  function Invoke(h: BareHandler, side: SignalSide): (r: (BareHandler, Effects))
    ensures r.1.callbackRuns == 1
    ensures r.0.policy == Bump(h.policy).0
    ensures r.1.disconnectRequest.Some? <==> Bump(h.policy).1 && Connected(h)
    ensures r.1.disconnectRequest.Some? ==> r.1.disconnectRequest == h.connectedTo
    ensures r.0.connectedTo == (if r.1.disconnectRequest.Some? && side.clears then None else h.connectedTo)
  {
    var (p', stop) := Bump(h.policy);
    var h' := h.(policy := p');
    if stop then
      var (h'', _, fx) := Disconnect(h', side);
      (h'', Effects(1, fx.disconnectRequest))
    else (h', Effects(1, None))
  }

  /** `Signal.connectDisposable(n, handler)` for the non-generic signal: a
      counting handler that is handed back without being connected. */
  function ConnectDisposable(disconnectAfter: Int32): (r: BareHandler)
    ensures !Connected(r)
    ensures r.policy == Disposable(0, disconnectAfter)
  {
    BareHandler(None, Disposable(0, disconnectAfter))
  }

  /** `k` invocations in a row, the signal answering every request alike. A
      handler keeps its signal or loses it, and only a signal that clears can
      take it; a plain handler never changes and never asks anything. */
  function InvokeTimes(h: BareHandler, k: nat, side: SignalSide): (r: (BareHandler, seq<Effects>))
    ensures |r.1| == k
    ensures r.0.connectedTo == h.connectedTo || r.0.connectedTo == None
    ensures !side.clears ==> r.0.connectedTo == h.connectedTo
    ensures r.0.policy.Plain? <==> h.policy.Plain?
    ensures h.policy.Plain? ==> r.0 == h && forall i | 0 <= i < k :: r.1[i] == Effects(1, None)
    decreases k
  {
    if k == 0 then (h, [])
    else
      var (h1, fx) := Invoke(h, side);
      var (h2, rest) := InvokeTimes(h1, k - 1, side);
      (h2, [fx] + rest)
  }

  /** Whether run `i` (counting from 0) of a connected disposable handler
      that starts at count `c` with threshold `n` asks its signal to drop it:
      the run must bring the count to the threshold, and a signal that clears
      the handler is asked only once, on the first such run. */
  predicate RequestsOnRun(c: int, n: int, i: nat, clears: bool) {
    c + i + 1 >= n && (!clears || i == 0 || c + i < n)
  }

  /** A disposable handler's runs, whatever it is connected to: the counter
      advances once per run; a connected handler asks its signal to drop it on
      the runs `RequestsOnRun` picks, and loses the signal after the first
      such run exactly when the signal clears it. */
  lemma {:induction false} DisposableCountdown(h: BareHandler, k: nat, side: SignalSide)
    requires h.policy.Disposable? && h.policy.count as int + k < 0x7fff_ffff
    ensures var (h', fx) := InvokeTimes(h, k, side);
      var c, n := h.policy.count as int, h.policy.disconnectAfter;
      && h'.policy == Disposable((c + k) as Int32, n)
      && h'.connectedTo == (if Connected(h) && side.clears && k > 0 && c + k >= n as int then None else h.connectedTo)
      && forall i | 0 <= i < k ::
           fx[i] == Effects(1, if Connected(h) && RequestsOnRun(c, n as int, i, side.clears) then h.connectedTo else None)
    decreases k
  {
    if k > 0 {
      var c, n := h.policy.count as int, h.policy.disconnectAfter;
      var (h1, fx0) := Invoke(h, side);
      assert h1.policy == Disposable((c + 1) as Int32, n);
      DisposableCountdown(h1, k - 1, side);
      var (h', fx) := InvokeTimes(h, k, side);
      var rest := InvokeTimes(h1, k - 1, side).1;
      assert fx == [fx0] + rest;
      forall i | 0 <= i < k
        ensures fx[i] == Effects(1, if Connected(h) && RequestsOnRun(c, n as int, i, side.clears) then h.connectedTo else None)
      {
        if i > 0 {
          assert fx[i] == rest[i - 1];
          assert Connected(h1) && RequestsOnRun(c + 1, n as int, i - 1, side.clears)
             <==> Connected(h) && RequestsOnRun(c, n as int, i, side.clears);
        }
      }
    }
  }

  /** A handler from the non-generic `connectDisposable` counts its runs and
      reaches its threshold on run `n`, but being connected to nothing it
      never reaches a signal: every run executes the callback once and no
      disconnect request leaves the handler. */
  lemma {:induction false} DisposableNeverReachesASignal(n: Int32, k: nat, side: SignalSide)
    requires k < 0x7fff_ffff
    ensures var (h, fx) := InvokeTimes(ConnectDisposable(n), k, side);
      && !Connected(h)
      && h.policy == Disposable(k as Int32, n)
      && forall i | 0 <= i < k :: fx[i] == Effects(1, None)
  {
    InvokeTimesNoRequest(ConnectDisposable(n), k, side);
    InvokeTimesCounts(ConnectDisposable(n), k, side);
    BumpTimesCounts(n, k);
  }

  lemma {:induction false} InvokeTimesNoRequest(h: BareHandler, k: nat, side: SignalSide)
    requires !Connected(h)
    ensures !Connected(InvokeTimes(h, k, side).0)
    ensures forall i | 0 <= i < k :: InvokeTimes(h, k, side).1[i] == Effects(1, None)
    decreases k
  {
    if k > 0 {
      var h1 := Invoke(h, side).0;
      InvokeTimesNoRequest(h1, k - 1, side);
    }
  }

  lemma {:induction false} InvokeTimesCounts(h: BareHandler, k: nat, side: SignalSide)
    requires h.policy.Disposable?
    ensures InvokeTimes(h, k, side).0.policy == BumpTimes(h.policy, k)
    decreases k
  {
    if k > 0 {
      InvokeTimesCounts(Invoke(h, side).0, k - 1, side);
    }
  }

  /** A connected handler at its threshold hands the signal its disconnect
      request on the run that reaches it, after running the callback. */
  lemma ConnectedDisposableRequestsAtThreshold(s: SignalRef, n: Int32, side: SignalSide)
    requires n <= 1
    ensures Invoke(BareHandler(Some(s), Disposable(0, n)), side).1 == Effects(1, Some(s))
  {
  }
}
