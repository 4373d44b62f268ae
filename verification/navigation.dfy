/** `solid.navigation.NavigationHost`: a back stack of fragments with a
    `currentLocation` index, and the fragment-level operations that forward
    to the host.

    Reading `activeFragment` with the index out of range throws in the
    source; every operation that may reach such a read returns an `Outcome`
    whose `Threw` case carries the state the host is left in. The host's
    fragments live in `fragments`, each hook a fragment runs is appended to
    `trace`, and `nextFragment` supplies fresh fragment identities. */
module Navigation {
  import opened Base
  import opened Bundles
  import opened Fragments

  datatype Host = Host(
    stack: seq<FragmentId>,
    location: int,
    fragments: map<FragmentId, Fragment>,
    trace: seq<Hook>,
    nextFragment: nat)

  datatype Outcome<R> = Returned(host: Host, value: R) | Threw(host: Host)

  /** Every fragment on the stack, and every id handed out, is known. */
  predicate HostValid(h: Host) {
    && (forall i | 0 <= i < |h.stack| :: h.stack[i] in h.fragments)
    && (forall f | f in h.fragments :: f < h.nextFragment)
  }

  /** The index invariant: the location names the top of a non-empty stack. */
  predicate Indexed(h: Host) {
    |h.stack| >= 1 && h.location == |h.stack| - 1
  }

  /** `activeFragment`: the fragment at the current location, or `None`
      where the source's list read throws. */
  function ActiveFragment(h: Host): (r: Option<FragmentId>)
    ensures r.Some? <==> 0 <= h.location < |h.stack|
    ensures Indexed(h) ==> r == Some(h.stack[|h.stack| - 1])
  {
    if 0 <= h.location < |h.stack| then Some(h.stack[h.location]) else None
  }

  /** Register a newly constructed fragment of class `kind`, as a fragment
      factory does. */
  function AddFragment(h: Host, kind: FragmentKind): (r: (Host, FragmentId))
    requires HostValid(h)
    ensures HostValid(r.0) && r.1 !in h.fragments
    ensures r.0.fragments == h.fragments[r.1 := NewFragment(kind)]
    ensures r.0.stack == h.stack && r.0.location == h.location && r.0.trace == h.trace
  {
    var f := h.nextFragment;
    (h.(fragments := h.fragments[f := NewFragment(kind)], nextFragment := f + 1), f)
  }

  /** `alloc` on fragment `f`. */
  function AllocIn(h: Host, f: FragmentId): (r: Host)
    requires HostValid(h) && f in h.fragments
    ensures HostValid(r) && f in r.fragments && r.fragments[f].usedArena
    ensures r.stack == h.stack && r.location == h.location && r.trace == h.trace
    ensures r.fragments.Keys == h.fragments.Keys
  {
    h.(fragments := h.fragments[f := Alloc(h.fragments[f])])
  }

  /** `navigateTo(destination)`: nothing when the destination is already
      active; otherwise set its host, `init` it unless it is somewhere on the
      stack already, push it (again, if it is lower down), call `onLeave` on
      the fragment that was active, move the location to the top and call
      `onDisplay` on the destination. `view` is the root its `createView`
      builds. */
  function NavigateTo(h: Host, f: FragmentId, view: View): (r: Outcome<()>)
    requires HostValid(h) && f in h.fragments
    ensures HostValid(r.host)
    ensures r.Threw? <==> ActiveFragment(h).None?
    ensures r.Threw? ==> r.host == h
    ensures ActiveFragment(h) == Some(f) ==> r == Returned(h, ())
  {
    match ActiveFragment(h)
    case None => Threw(h)
    case Some(active) =>
      if active == f then Returned(h, ())
      else
        var fr := h.fragments[f].(hosted := true);
        var (fr', inits, _) := if f in h.stack then (fr, [], view) else Init(fr, f, view);
        var stack' := h.stack + [f];
        var left := stack'[h.location];
        Returned(Host(stack', |stack'| - 1, h.fragments[f := fr'],
                      h.trace + inits + [Hook(left, Left), Hook(f, Displayed)], h.nextFragment), ())
  }

  /** `navigateUp()`: nothing at the root or on an empty stack; otherwise
      pop the top, move the location down one, call `onDisplay` on the
      fragment now there and `destroy` the popped one. */
  function NavigateUp(h: Host): (r: Outcome<()>)
    requires HostValid(h)
    ensures HostValid(r.host)
    ensures h.location <= 0 || h.stack == [] ==> r == Returned(h, ())
    ensures r.host.fragments == h.fragments && r.host.nextFragment == h.nextFragment
  {
    if h.location <= 0 || h.stack == [] then Returned(h, ())
    else
      var removed := h.stack[|h.stack| - 1];
      var h1 := h.(stack := h.stack[..|h.stack| - 1], location := h.location - 1);
      match ActiveFragment(h1)
      case None => Threw(h1)
      case Some(top) =>
        Returned(h1.(trace := h.trace + [Hook(top, Displayed)] + Destroy(h.fragments[removed], removed)), ())
  }

  /** `popStack()`, as written: `None` at the root; otherwise remove and
      return the top fragment, leaving the location where it was. On an empty
      stack `removeLast` throws. */
  function PopStack(h: Host): (r: Outcome<Option<FragmentId>>)
    requires HostValid(h)
    ensures HostValid(r.host)
    ensures h.location <= 0 ==> r == Returned(h, None)
    ensures r.Threw? <==> h.location > 0 && h.stack == []
    ensures r.Returned? && h.location > 0 ==>
      && r.value.Some? && h.stack == r.host.stack + [r.value.value]
      && r.host.location == h.location
      && r.host.trace == h.trace
  {
    if h.location <= 0 then Returned(h, None)
    else if h.stack == [] then Threw(h)
    else Returned(h.(stack := h.stack[..|h.stack| - 1]), Some(h.stack[|h.stack| - 1]))
  }

  /** `popStack()` with the location following the removed top, as the
      index invariant needs. */
  function PopStackIndexed(h: Host): (r: Outcome<Option<FragmentId>>)
    requires HostValid(h)
    ensures HostValid(r.host)
    ensures h.location <= 0 ==> r == Returned(h, None)
    ensures r.Threw? <==> h.location > 0 && h.stack == []
    ensures r.Returned? && h.location > 0 ==>
      && r.value.Some? && h.stack == r.host.stack + [r.value.value]
      && r.host.location == h.location - 1
      && r.host.trace == h.trace
    ensures Indexed(h) && r.Returned? ==> Indexed(r.host)
  {
    if h.location <= 0 then Returned(h, None)
    else if h.stack == [] then Threw(h)
    else Returned(h.(stack := h.stack[..|h.stack| - 1], location := h.location - 1), Some(h.stack[|h.stack| - 1]))
  }

  /** `find<T>()`: the lowest fragment on the stack of class `kind`. */
  function Find(h: Host, kind: FragmentKind): (r: Option<FragmentId>)
    requires HostValid(h)
    ensures r.None? <==> forall i | 0 <= i < |h.stack| :: h.fragments[h.stack[i]].kind != kind
    ensures r.Some? ==> exists i | 0 <= i < |h.stack| ::
      && h.stack[i] == r.value
      && h.fragments[r.value].kind == kind
      && forall j | 0 <= j < i :: h.fragments[h.stack[j]].kind != kind
  {
    FindFrom(h, kind, 0)
  }

  function FindFrom(h: Host, kind: FragmentKind, from: nat): (r: Option<FragmentId>)
    requires HostValid(h) && from <= |h.stack|
    ensures r.None? <==> forall i | from <= i < |h.stack| :: h.fragments[h.stack[i]].kind != kind
    ensures r.Some? ==> exists i | from <= i < |h.stack| ::
      && h.stack[i] == r.value
      && h.fragments[r.value].kind == kind
      && forall j | from <= j < i :: h.fragments[h.stack[j]].kind != kind
    decreases |h.stack| - from
  {
    if from == |h.stack| then None
    else if h.fragments[h.stack[from]].kind == kind then Some(h.stack[from])
    else FindFrom(h, kind, from + 1)
  }

  /** `findOrCreate<T>(factory)`: the fragment `find` returns, or a new one
      of class `kind` from the factory, which is not on the stack. */
  function FindOrCreate(h: Host, kind: FragmentKind): (r: (Host, FragmentId))
    requires HostValid(h)
    ensures HostValid(r.0) && r.1 in r.0.fragments && r.0.fragments[r.1].kind == kind
    ensures Find(h, kind).Some? ==> r == (h, Find(h, kind).value)
    ensures Find(h, kind).None? ==> r.1 !in h.fragments && r.1 !in h.stack && r.0.stack == h.stack
  {
    match Find(h, kind)
    case Some(f) => (h, f)
    case None => AddFragment(h, kind)
  }

  /** `navigateTo(where, arguments)`: resolve the destination against the
      host, then navigate to the fragment it yields. */
  function NavigateToDestination(h: Host, resolve: (Host, Option<Bundle>) -> (Host, FragmentId),
                                 arguments: Option<Bundle>, view: View): (r: Outcome<()>)
    requires HostValid(h)
    requires HostValid(resolve(h, arguments).0) && resolve(h, arguments).1 in resolve(h, arguments).0.fragments
    ensures r == NavigateTo(resolve(h, arguments).0, resolve(h, arguments).1, view)
    ensures r.Threw? <==> ActiveFragment(resolve(h, arguments).0).None?
  {
    var (h1, f) := resolve(h, arguments);
    NavigateTo(h1, f, view)
  }

  /** Fragment `self`'s `navigateTo(where, arguments)`: the host's
      resolving `navigateTo`, or an uninitialised-property failure, before
      anything is resolved, when no host was ever set. */
  function FragmentNavigateTo(h: Host, self: FragmentId, resolve: (Host, Option<Bundle>) -> (Host, FragmentId),
                              arguments: Option<Bundle>, view: View): (r: Outcome<()>)
    requires HostValid(h) && self in h.fragments
    requires h.fragments[self].hosted ==>
      HostValid(resolve(h, arguments).0) && resolve(h, arguments).1 in resolve(h, arguments).0.fragments
    ensures !h.fragments[self].hosted ==> r == Threw(h)
    ensures h.fragments[self].hosted ==> r == NavigateToDestination(h, resolve, arguments, view)
    ensures r.Returned? ==> h.fragments[self].hosted
  {
    if h.fragments[self].hosted then NavigateToDestination(h, resolve, arguments, view) else Threw(h)
  }

  /** Fragment `self`'s `navigateUp`: the host's, or an uninitialised-
      property failure when no host was ever set. */
  function FragmentNavigateUp(h: Host, self: FragmentId): (r: Outcome<()>)
    requires HostValid(h) && self in h.fragments
    ensures !h.fragments[self].hosted ==> r == Threw(h)
    ensures h.fragments[self].hosted ==> r == NavigateUp(h)
  {
    if h.fragments[self].hosted then NavigateUp(h) else Threw(h)
  }

  /** The host constructor as written: an empty stack at location 0, then
      `navigateTo(root)`, whose first step reads `activeFragment`. */
  function NewHostAsWritten(fragments: map<FragmentId, Fragment>, nextFragment: nat, root: FragmentId, view: View): (r: Outcome<()>)
    requires HostValid(Host([], 0, fragments, [], nextFragment)) && root in fragments
    ensures r.Threw? && r.host.stack == [] && r.host.trace == []
  {
    NavigateTo(Host([], 0, fragments, [], nextFragment), root, view)
  }

  /** The host constructor as intended: `root` is initialised, pushed as the
      only entry and displayed; there is no previous fragment to leave. */
  function NewHost(fragments: map<FragmentId, Fragment>, nextFragment: nat, root: FragmentId, view: View): (r: Host)
    requires HostValid(Host([], 0, fragments, [], nextFragment)) && root in fragments
    ensures HostValid(r) && Indexed(r)
    ensures r.stack == [root] && ActiveFragment(r) == Some(root)
    ensures r.trace == [Hook(root, Attached), Hook(root, ViewCreated), Hook(root, Displayed)]
    ensures r.fragments[root].hosted && r.fragments[root].root == Some(view)
  {
    var (fr, inits, _) := Init(fragments[root].(hosted := true), root, view);
    Host([root], 0, fragments[root := fr], inits + [Hook(root, Displayed)], nextFragment)
  }
}
