/** `solid.navigation.Fragment`: a screen with a lifecycle. Its hooks are
    recorded as a trace of `Hook`s so that their order can be stated; the
    view the fragment builds and the arena it allocates from are opaque, only
    the root it stores and whether the arena was ever used are kept. */
module Fragments {
  import opened Base

  type FragmentId = nat

  /** The class of a fragment, compared where the source tests `it is T`. */
  type FragmentKind = nat

  /** An opaque root widget. */
  type View = nat

  /** `hosted` says whether the late-initialised `host` has been set. */
  datatype Fragment = Fragment(kind: FragmentKind, hosted: bool, root: Option<View>, usedArena: bool)

  /** The lifecycle hooks, plus the two steps `init` and `destroy` take
      besides calling them: building the view and clearing the arena. */
  datatype HookKind = Attached | ViewCreated | Displayed | Left | Destroyed | ArenaCleared

  datatype Hook = Hook(fragment: FragmentId, kind: HookKind)

  /** A freshly constructed fragment: no host, no root, arena untouched. */
  function NewFragment(kind: FragmentKind): (r: Fragment)
    ensures r.kind == kind && !r.hosted && r.root.None? && !r.usedArena
  {
    Fragment(kind, false, None, false)
  }

  /** `init(container)`: `onAttached`, then build the view and store it as
      the root, which is also returned. */
  function Init(fr: Fragment, id: FragmentId, view: View): (r: (Fragment, seq<Hook>, View))
    ensures r.0 == fr.(root := Some(view)) && r.2 == view
    ensures r.1 == [Hook(id, Attached), Hook(id, ViewCreated)]
  {
    (fr.(root := Some(view)), [Hook(id, Attached), Hook(id, ViewCreated)], view)
  }

  /** `destroy()`: `onDestroy`, then clear the arena if it was ever used. */
  function Destroy(fr: Fragment, id: FragmentId): (r: seq<Hook>)
    ensures |r| >= 1 && r[0] == Hook(id, Destroyed)
    ensures Hook(id, ArenaCleared) in r <==> fr.usedArena
    ensures forall k | k in r :: k.fragment == id
  {
    [Hook(id, Destroyed)] + if fr.usedArena then [Hook(id, ArenaCleared)] else []
  }

  /** `alloc(...)`: the first allocation creates the arena, which marks it
      used; the allocated memory itself is not modelled. */
  function Alloc(fr: Fragment): (r: Fragment)
    ensures r.usedArena
    ensures r.(usedArena := fr.usedArena) == fr
  {
    fr.(usedArena := true)
  }

  /** The arena flag only ever goes from unused to used: it is unset on a new
      fragment, set by the first allocation, and neither later allocations
      nor `init` clear it. */
  lemma ArenaFlagMonotone(kind: FragmentKind, id: FragmentId, view: View, allocs: nat)
    ensures !NewFragment(kind).usedArena
    ensures allocs >= 1 ==> AllocTimes(NewFragment(kind), allocs).usedArena
    ensures allocs == 0 ==> !AllocTimes(NewFragment(kind), allocs).usedArena
    ensures Init(AllocTimes(NewFragment(kind), allocs), id, view).0.usedArena == (allocs >= 1)
  {
    AllocTimesUsed(NewFragment(kind), allocs);
  }

  function AllocTimes(fr: Fragment, k: nat): (r: Fragment)
    decreases k
  {
    if k == 0 then fr else AllocTimes(Alloc(fr), k - 1)
  }

  lemma {:induction false} AllocTimesUsed(fr: Fragment, k: nat)
    ensures AllocTimes(fr, k).usedArena == (fr.usedArena || k >= 1)
    ensures AllocTimes(fr, k).(usedArena := fr.usedArena) == fr
    decreases k
  {
    if k > 0 {
      AllocTimesUsed(Alloc(fr), k - 1);
    }
  }
}
