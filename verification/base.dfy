/** Small shared vocabulary: optional values, the 32-bit integers the source
    counts with, and the invocation counter of a disposable handler. */
module Base {

  /** A nullable reference of the source. */
  datatype Option<+T> = None | Some(value: T)

  /** Kotlin's `Int`. */
  newtype Int32 = x: int | -0x8000_0000 <= x < 0x8000_0000

  const Int32Max: Int32 := 0x7fff_ffff
  const Int32Min: Int32 := -0x8000_0000

  /** `x++` on a Kotlin `Int`: wraps from the largest value to the smallest. */
  function Inc32(x: Int32): (r: Int32)
    ensures x < Int32Max ==> r as int == x as int + 1
    ensures x == Int32Max ==> r == Int32Min
  {
    if x == Int32Max then Int32Min else x + 1
  }

  /** What a handler does when it is invoked: either it only runs its callback,
      or it is a disposable handler that also counts its invocations and
      disconnects itself once the count reaches `disconnectAfter`. */
  datatype Policy = Plain | Disposable(count: Int32, disconnectAfter: Int32)

  /** The counter reset the disposable handlers perform on connect and reconnect. */
  function Reset(p: Policy): (r: Policy)
    ensures r.Plain? <==> p.Plain?
    ensures r.Disposable? ==> r.count == 0 && r.disconnectAfter == p.disconnectAfter
  {
    match p
    case Plain => Plain
    case Disposable(_, n) => Disposable(0, n)
  }

  /** The step a disposable handler takes after running its callback: the
      counter is incremented, and the handler asks to be disconnected when the
      new count is at least `disconnectAfter`. A plain handler takes no step. */
  function Bump(p: Policy): (r: (Policy, bool))
    ensures p.Plain? ==> r == (Plain, false)
    ensures p.Disposable? ==> r.0 == Disposable(Inc32(p.count), p.disconnectAfter)
    ensures p.Disposable? ==> (r.1 <==> Inc32(p.count) >= p.disconnectAfter)
  {
    match p
    case Plain => (Plain, false)
    case Disposable(c, n) =>
      var c' := Inc32(c);
      (Disposable(c', n), c' >= n)
  }

  /** Running the counter step from zero: a disposable handler with threshold
      `n` asks to disconnect on invocation number `max(n, 1)` and on none
      before it. */
  function BumpTimes(p: Policy, k: nat): (r: Policy)
    requires p.Disposable?
    ensures r.Disposable? && r.disconnectAfter == p.disconnectAfter
    decreases k
  {
    if k == 0 then p else BumpTimes(Bump(p).0, k - 1)
  }

  lemma {:induction false} BumpTimesCounts(n: Int32, k: nat)
    requires k < 0x7fff_ffff
    ensures BumpTimes(Disposable(0, n), k) == Disposable(k as Int32, n)
    ensures k >= 1 ==> (Bump(BumpTimes(Disposable(0, n), k - 1)).1 <==> k >= n as int)
  {
    if k > 0 {
      BumpTimesCounts(n, k - 1);
      BumpTimesShift(Disposable(0, n), k - 1);
    }
  }

  lemma {:induction false} BumpTimesShift(p: Policy, k: nat)
    requires p.Disposable?
    ensures BumpTimes(p, k + 1) == Bump(BumpTimes(p, k)).0
    decreases k
  {
    if k > 0 {
      BumpTimesShift(Bump(p).0, k - 1);
    }
  }
}
