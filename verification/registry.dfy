/** The handler set of one emitter. Kotlin's `mutableSetOf()` is an
    insertion-ordered hash set, so it is modelled as a sequence without
    duplicates: `Insert` appends an absent element, `Remove` deletes one. */
module Registry {

  type HandlerId = nat

  predicate NoDup(s: seq<HandlerId>) {
    forall i, j | 0 <= i < j < |s| :: s[i] != s[j]
  }

  /** `MutableSet.add`: true iff the element was not present before. */
  function Insert(s: seq<HandlerId>, h: HandlerId): (r: (seq<HandlerId>, bool))
    ensures r.1 <==> h !in s
    ensures h in r.0
    ensures forall x :: x in r.0 <==> x in s || x == h
    ensures NoDup(s) ==> NoDup(r.0)
    ensures |s| <= |r.0| && r.0[..|s|] == s
  {
    if h in s then (s, false) else (s + [h], true)
  }

  /** `MutableSet.remove`: true iff the element was present before. */
  function Remove(s: seq<HandlerId>, h: HandlerId): (r: (seq<HandlerId>, bool))
    ensures r.1 <==> h in s
    ensures h !in r.0
    ensures forall x :: x in r.0 <==> x in s && x != h
    ensures NoDup(s) ==> NoDup(r.0)
    ensures h !in s ==> r.0 == s
    decreases |s|
  {
    if s == [] then ([], false)
    else
      var (rest, found) := Remove(s[1..], h);
      assert s == [s[0]] + s[1..];
      NoDupCons(s[0], s[1..]);
      NoDupCons(s[0], rest);
      if s[0] == h then (rest, true) else ([s[0]] + rest, found)
  }

  lemma NoDupCons(x: HandlerId, t: seq<HandlerId>)
    ensures NoDup([x] + t) <==> x !in t && NoDup(t)
  {
    var s := [x] + t;
    if NoDup(s) {
      forall i, j | 0 <= i < j < |t| ensures t[i] != t[j] {
        assert t[i] == s[i + 1] && t[j] == s[j + 1];
      }
      forall j | 0 <= j < |t| ensures t[j] != x {
        assert t[j] == s[j + 1] && s[0] == x;
      }
    }
    if x !in t && NoDup(t) {
      forall i, j | 0 <= i < j < |s| ensures s[i] != s[j] {
        if i > 0 {
          assert s[i] == t[i - 1] && s[j] == t[j - 1];
        } else {
          assert s[j] == t[j - 1];
        }
      }
    }
  }

  /** Removing an element that was just inserted restores the set. */
  lemma InsertThenRemove(s: seq<HandlerId>, h: HandlerId)
    requires h !in s
    ensures Remove(Insert(s, h).0, h) == (s, true)
  {
    RemoveLast(s, h);
  }

  lemma {:induction false} RemoveLast(s: seq<HandlerId>, h: HandlerId)
    requires h !in s
    ensures Remove(s + [h], h) == (s, true)
    decreases |s|
  {
    if s == [] {
      assert Remove([h], h) == ([], true);
    } else {
      assert (s + [h])[1..] == s[1..] + [h];
      RemoveLast(s[1..], h);
      assert [s[0]] + s[1..] == s;
    }
  }

  /** Inserting an element that was just removed restores membership. */
  lemma RemoveThenInsert(s: seq<HandlerId>, h: HandlerId)
    requires NoDup(s) && h in s
    ensures forall x :: x in Insert(Remove(s, h).0, h).0 <==> x in s
    ensures Insert(Remove(s, h).0, h).1
  {
  }

  /** In a sequence without duplicates every member occurs exactly once. */
  lemma {:induction false} NoDupCount(s: seq<HandlerId>, h: HandlerId)
    requires NoDup(s)
    ensures multiset(s)[h] == if h in s then 1 else 0
    decreases |s|
  {
    if s != [] {
      assert s == [s[0]] + s[1..];
      NoDupCons(s[0], s[1..]);
      NoDupCount(s[1..], h);
    }
  }
}
