/** Properties of navigation sequences: the index invariant and which
    operations keep it, the order in which hooks run, and what the as-written
    `popStack` and host constructor do to it. */
module NavigationLaws {
  import opened Base
  import opened Fragments
  import opened Navigation

  /** From an indexed host, navigating to a fragment that is not active
      pushes it, keeps the invariant, and runs, in this order: `onAttached`
      and the view build of the destination if it was not on the stack,
      `onLeave` of the fragment that was active, `onDisplay` of the
      destination. Fragments other than the destination are unchanged. */
  lemma NavigateToPushes(h: Host, f: FragmentId, view: View)
    requires HostValid(h) && Indexed(h) && f in h.fragments
    requires ActiveFragment(h) != Some(f)
    ensures var r := NavigateTo(h, f, view);
      var top := h.stack[|h.stack| - 1];
      && r.Returned? && Indexed(r.host)
      && r.host.stack == h.stack + [f]
      && ActiveFragment(r.host) == Some(f)
      && r.host.trace == h.trace
           + (if f in h.stack then [] else [Hook(f, Attached), Hook(f, ViewCreated)])
           + [Hook(top, Left), Hook(f, Displayed)]
      && r.host.fragments[f].hosted
      && r.host.fragments[f].root == (if f in h.stack then h.fragments[f].root else Some(view))
      && (forall g | g in h.fragments && g != f :: g in r.host.fragments && r.host.fragments[g] == h.fragments[g])
  {
  }

  /** From an indexed host, `navigateUp` never throws and keeps the
      invariant. Above the root it pops the top and runs `onDisplay` of the
      fragment below before the popped one's `onDestroy` (and arena clear, if
      it used one); at the root it changes nothing. */
  lemma NavigateUpPops(h: Host)
    requires HostValid(h) && Indexed(h)
    ensures var r := NavigateUp(h);
      && r.Returned? && Indexed(r.host)
      && (|h.stack| == 1 ==> r.host == h)
      && (|h.stack| >= 2 ==>
            var removed := h.stack[|h.stack| - 1];
            var below := h.stack[|h.stack| - 2];
            && r.host.stack == h.stack[..|h.stack| - 1]
            && ActiveFragment(r.host) == Some(below)
            && r.host.trace == h.trace + [Hook(below, Displayed)] + Destroy(h.fragments[removed], removed))
  {
  }

  /** Going to a fragment and back up again returns to the same stack, with
      the hooks of both moves in order. */
  lemma NavigateToThenUp(h: Host, f: FragmentId, view: View)
    requires HostValid(h) && Indexed(h) && f in h.fragments
    requires ActiveFragment(h) != Some(f)
    ensures var r1 := NavigateTo(h, f, view).host;
      var r2 := NavigateUp(r1);
      var top := h.stack[|h.stack| - 1];
      && r2.Returned?
      && r2.host.stack == h.stack
      && r2.host.location == h.location
      && r2.host.trace == r1.trace + [Hook(top, Displayed)] + Destroy(r1.fragments[f], f)
  {
    NavigateToPushes(h, f, view);
    var r1 := NavigateTo(h, f, view).host;
    NavigateUpPops(r1);
    assert r1.stack[..|r1.stack| - 1] == h.stack;
  }

  /** A fragment that is already lower on the stack is pushed a second time
      without a second `init`; navigating up from it then destroys it while
      it is still on the stack. */
  lemma RevisitDestroysStackedFragment(h: Host, f: FragmentId, view: View)
    requires HostValid(h) && Indexed(h) && f in h.stack
    requires ActiveFragment(h) != Some(f)
    ensures var r1 := NavigateTo(h, f, view).host;
      var r2 := NavigateUp(r1).host;
      && Hook(f, Attached) !in r1.trace[|h.trace|..]
      && Hook(f, Destroyed) in r2.trace[|r1.trace|..]
      && f in r2.stack
  {
    NavigateToPushes(h, f, view);
    var r1 := NavigateTo(h, f, view).host;
    NavigateUpPops(r1);
    assert r1.trace[|h.trace|..] == [Hook(h.stack[|h.stack| - 1], Left), Hook(f, Displayed)];
    assert r1.stack[..|r1.stack| - 1] == h.stack;
    var r2 := NavigateUp(r1).host;
    var gone := Destroy(r1.fragments[f], f);
    assert r2.trace[|r1.trace|..] == [Hook(h.stack[|h.stack| - 1], Displayed)] + gone;
    assert gone[0] == Hook(f, Destroyed);
  }

  /** The as-written `popStack` above the root removes the top but leaves
      the location on it: the host is no longer indexed, `activeFragment`
      throws, and so does the next `navigateUp` and the next `navigateTo`. */
  lemma PopStackBreaksIndex(h: Host, f: FragmentId, view: View)
    requires HostValid(h) && Indexed(h) && h.location > 0 && f in h.fragments
    ensures var r := PopStack(h);
      && r.Returned? && r.value == Some(h.stack[|h.stack| - 1])
      && !Indexed(r.host)
      && ActiveFragment(r.host).None?
      && NavigateUp(r.host).Threw?
      && NavigateTo(r.host, f, view).Threw?
  {
  }

  /** A concrete instance: a stack of three with the location on the top. */
  lemma PopStackThenNavigateUpThrows()
    ensures var fragments := map[0 := NewFragment(0), 1 := NewFragment(1), 2 := NewFragment(2)];
      var h := Host([0, 1, 2], 2, fragments, [], 3);
      var popped := PopStack(h).host;
      && popped.stack == [0, 1] && popped.location == 2
      && NavigateUp(popped).Threw?
  {
  }

  /** The corrected `popStack` keeps the invariant, so navigation goes on:
      the next `navigateUp` does not throw. */
  lemma PopStackIndexedKeepsIndex(h: Host)
    requires HostValid(h) && Indexed(h)
    ensures var r := PopStackIndexed(h);
      && r.Returned? && Indexed(r.host)
      && (h.location > 0 ==> r.value == Some(h.stack[|h.stack| - 1]) && r.host.stack == h.stack[..|h.stack| - 1])
      && NavigateUp(r.host).Returned?
  {
    var r := PopStackIndexed(h);
    NavigateUpPops(r.host);
  }

  /** The as-written constructor always throws: `navigateTo(root)` reads
      `activeFragment` of the empty stack. */
  lemma NewHostAsWrittenThrows(fragments: map<FragmentId, Fragment>, nextFragment: nat, root: FragmentId, view: View)
    requires HostValid(Host([], 0, fragments, [], nextFragment)) && root in fragments
    ensures NewHostAsWritten(fragments, nextFragment, root, view).Threw?
  {
  }

  /** The corrected constructor yields an indexed host from which
      navigation proceeds: navigating to any other fragment succeeds, and
      navigating up stays at the root. */
  lemma NewHostNavigates(fragments: map<FragmentId, Fragment>, nextFragment: nat, root: FragmentId, view: View,
                         f: FragmentId, view2: View)
    requires HostValid(Host([], 0, fragments, [], nextFragment)) && root in fragments
    requires f in fragments && f != root
    ensures var h := NewHost(fragments, nextFragment, root, view);
      && NavigateTo(h, f, view2).Returned?
      && NavigateTo(h, f, view2).host.stack == [root, f]
      && NavigateUp(h) == Returned(h, ())
  {
    var h := NewHost(fragments, nextFragment, root, view);
    NavigateToPushes(h, f, view2);
  }

  /** `findOrCreate` does not push what it creates, so a second call for a
      class absent from the stack creates yet another fragment. */
  lemma FindOrCreateDoesNotRemember(h: Host, kind: FragmentKind)
    requires HostValid(h) && Find(h, kind).None?
    ensures var (h1, f1) := FindOrCreate(h, kind);
      var (h2, f2) := FindOrCreate(h1, kind);
      f1 != f2 && h1.stack == h.stack && h2.stack == h.stack
  {
    var (h1, f1) := FindOrCreate(h, kind);
    assert forall i | 0 <= i < |h1.stack| :: h1.fragments[h1.stack[i]] == h.fragments[h.stack[i]];
  }
}
