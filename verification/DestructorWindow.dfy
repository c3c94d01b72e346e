/**
 The destructor calls made explicit when control leaves lifetimes, and the chain head that the
 statement stack saves and restores (aset_CCcc/src/SET_ast.c, process_lifetime_window).
 */
module DestructorWindow {
  import opened Basics

  /** a_dynamic_init: an object and the destructor that ends it */
  datatype Init = Init(next: Option<nat>,           // next_in_destruction_list
                       lifetime: Option<nat>,
                       destructor: Option<nat>,
                       freesOnException: bool,      // is_freeing_of_storage_on_exception
                       constructorInit: bool)       // is_constructor_init

  /** an_object_lifetime */
  datatype Lifetime = Lifetime(parent: Option<nat>, sublist: Option<nat>)

  /** The entities, named by their place; pointers lead to earlier ones. */
  datatype Arena = Arena(inits: seq<Init>, lifetimes: seq<Lifetime>)

  predicate Below(p: Option<nat>, n: nat) {
    p.Some? ==> p.value < n
  }

  ghost predicate Acyclic(a: Arena) {
    && (forall i :: 0 <= i < |a.inits| ==> Below(a.inits[i].next, i) && Below(a.inits[i].lifetime, |a.lifetimes|))
    && (forall l :: 0 <= l < |a.lifetimes| ==>
          Below(a.lifetimes[l].parent, l) && Below(a.lifetimes[l].sublist, |a.inits|))
  }

  datatype Call = Call(destructor: nat, object: nat)

  /** The call made for an object, if its destructor is to be called at all */
  function DestructorCall(a: Arena, i: nat): seq<Call>
    requires i < |a.inits|
  {
    var init := a.inits[i];
    if init.destructor.None? || init.freesOnException then [] else [Call(init.destructor.value, i)]
  }

  /** The call due when the object's lifetime is left; base and member objects are left to the destructor. */
  function CallFor(a: Arena, i: nat): seq<Call> {
    if i >= |a.inits| || a.inits[i].constructorInit then [] else DestructorCall(a, i)
  }

  // ---------------------------------------------------------------- the calls wanted

  /** The calls for one destruction list. */
  function ListCalls(a: Arena, head: Option<nat>): seq<Call>
    requires Acyclic(a) && Below(head, |a.inits|)
    decreases if head.Some? then head.value + 1 else 0
  {
    if head.None? then [] else CallFor(a, head.value) + ListCalls(a, a.inits[head.value].next)
  }

  predicate Leaves(l: Option<nat>, target: Option<nat>) {
    l.Some? && l != target
  }

  function Depth(l: Option<nat>): nat {
    if l.Some? then l.value + 1 else 0
  }

  /** The calls for every lifetime left, innermost first; head is the list of the first. */
  function AllCalls(a: Arena, head: Option<nat>, l: Option<nat>, target: Option<nat>): seq<Call>
    requires Acyclic(a) && Below(head, |a.inits|) && Below(l, |a.lifetimes|)
    decreases Depth(l)
  {
    if !Leaves(l, target) then []
    else
      var outer := a.lifetimes[l.value];
      ListCalls(a, head) + AllCalls(a, outer.sublist, outer.parent, target)
  }

  /** The number of lifetimes left on the way from l to the target */
  function Left(a: Arena, l: Option<nat>, target: Option<nat>): nat
    requires Acyclic(a) && Below(l, |a.lifetimes|)
    decreases Depth(l)
  {
    if !Leaves(l, target) then 0 else 1 + Left(a, a.lifetimes[l.value].parent, target)
  }

  /** The list of the k-th of them */
  function HeadAt(a: Arena, head: Option<nat>, l: Option<nat>, target: Option<nat>, k: nat): (h: Option<nat>)
    requires Acyclic(a) && Below(head, |a.inits|) && Below(l, |a.lifetimes|) && k < Left(a, l, target)
    ensures Below(h, |a.inits|)
    decreases Depth(l)
  {
    if k == 0 then head else HeadAt(a, a.lifetimes[l.value].sublist, a.lifetimes[l.value].parent, target, k - 1)
  }

  // ---------------------------------------------------------------- the calls made

  /** The walk gives up at the first lifetime whose list is empty. */
  function WindowCalls(a: Arena, head: Option<nat>, l: Option<nat>, target: Option<nat>): seq<Call>
    requires Acyclic(a) && Below(head, |a.inits|) && Below(l, |a.lifetimes|)
    decreases Depth(l)
  {
    if !Leaves(l, target) || head.None? then []
    else
      var outer := a.lifetimes[l.value];
      ListCalls(a, head) + WindowCalls(a, outer.sublist, outer.parent, target)
  }

  /** What the walk reaches is a first part of what is wanted: nothing is out of order. */
  lemma {:induction false} WindowIsPrefix(a: Arena, head: Option<nat>, l: Option<nat>, target: Option<nat>)
    requires Acyclic(a) && Below(head, |a.inits|) && Below(l, |a.lifetimes|)
    ensures WindowCalls(a, head, l, target) <= AllCalls(a, head, l, target)
    decreases Depth(l)
  {
    if Leaves(l, target) && head.Some? {
      var outer := a.lifetimes[l.value];
      WindowIsPrefix(a, outer.sublist, outer.parent, target);
    }
  }

  /** No object of the lifetimes left is due a call. */
  ghost predicate Silent(a: Arena, head: Option<nat>, l: Option<nat>, target: Option<nat>)
    requires Acyclic(a) && Below(head, |a.inits|) && Below(l, |a.lifetimes|)
  {
    forall m :: 0 <= m < Left(a, l, target) ==> ListCalls(a, HeadAt(a, head, l, target, m)) == []
  }

  lemma HeadsOfOuter(a: Arena, head: Option<nat>, l: Option<nat>, target: Option<nat>, m: nat)
    requires Acyclic(a) && Below(head, |a.inits|) && Below(l, |a.lifetimes|) && Leaves(l, target)
    requires 0 < m < Left(a, l, target)
    ensures var outer := a.lifetimes[l.value];
      HeadAt(a, head, l, target, m) == HeadAt(a, outer.sublist, outer.parent, target, m - 1)
  {
  }

  lemma SilentAt(a: Arena, head: Option<nat>, l: Option<nat>, target: Option<nat>, m: nat)
    requires Acyclic(a) && Below(head, |a.inits|) && Below(l, |a.lifetimes|) && m < Left(a, l, target)
    requires Silent(a, head, l, target)
    ensures ListCalls(a, HeadAt(a, head, l, target, m)) == []
  {
  }

  lemma SilentOuterAt(a: Arena, head: Option<nat>, l: Option<nat>, target: Option<nat>, m: nat)
    requires Acyclic(a) && Below(head, |a.inits|) && Below(l, |a.lifetimes|) && Leaves(l, target)
    requires Silent(a, head, l, target) && m < Left(a, a.lifetimes[l.value].parent, target)
    ensures var outer := a.lifetimes[l.value];
      ListCalls(a, HeadAt(a, outer.sublist, outer.parent, target, m)) == []
  {
    HeadsOfOuter(a, head, l, target, m + 1);
    SilentAt(a, head, l, target, m + 1);
  }

  lemma OuterIsSilent(a: Arena, head: Option<nat>, l: Option<nat>, target: Option<nat>)
    requires Acyclic(a) && Below(head, |a.inits|) && Below(l, |a.lifetimes|) && Leaves(l, target)
    requires Silent(a, head, l, target)
    ensures var outer := a.lifetimes[l.value];
      ListCalls(a, head) == [] && Silent(a, outer.sublist, outer.parent, target)
  {
    var outer := a.lifetimes[l.value];
    SilentAt(a, head, l, target, 0);
    forall m | 0 <= m < Left(a, outer.parent, target)
      ensures ListCalls(a, HeadAt(a, outer.sublist, outer.parent, target, m)) == []
    {
      SilentOuterAt(a, head, l, target, m);
    }
  }

  lemma SilentOfOuter(a: Arena, head: Option<nat>, l: Option<nat>, target: Option<nat>)
    requires Acyclic(a) && Below(head, |a.inits|) && Below(l, |a.lifetimes|) && Leaves(l, target)
    ensures var outer := a.lifetimes[l.value];
      Silent(a, head, l, target) <==> ListCalls(a, head) == [] && Silent(a, outer.sublist, outer.parent, target)
  {
    var outer := a.lifetimes[l.value];
    if Silent(a, head, l, target) { OuterIsSilent(a, head, l, target); }
    if ListCalls(a, head) == [] && Silent(a, outer.sublist, outer.parent, target) {
      forall m | 0 <= m < Left(a, l, target) ensures ListCalls(a, HeadAt(a, head, l, target, m)) == [] {
        if m > 0 { HeadsOfOuter(a, head, l, target, m); }
      }
    }
  }

  lemma {:induction false} SilentIff(a: Arena, head: Option<nat>, l: Option<nat>, target: Option<nat>)
    requires Acyclic(a) && Below(head, |a.inits|) && Below(l, |a.lifetimes|)
    ensures AllCalls(a, head, l, target) == [] <==> Silent(a, head, l, target)
    decreases Depth(l)
  {
    if Leaves(l, target) {
      var outer := a.lifetimes[l.value];
      SilentIff(a, outer.sublist, outer.parent, target);
      SilentOfOuter(a, head, l, target);
      assert AllCalls(a, head, l, target) == ListCalls(a, head) + AllCalls(a, outer.sublist, outer.parent, target);
    }
  }

  /** No object past an empty list is due a call. */
  ghost predicate NothingPastGap(a: Arena, head: Option<nat>, l: Option<nat>, target: Option<nat>)
    requires Acyclic(a) && Below(head, |a.inits|) && Below(l, |a.lifetimes|)
  {
    forall k, m :: 0 <= k < m < Left(a, l, target) && HeadAt(a, head, l, target, k).None? ==>
      ListCalls(a, HeadAt(a, head, l, target, m)) == []
  }

  lemma PastGapOfOuter(a: Arena, head: Option<nat>, l: Option<nat>, target: Option<nat>)
    requires Acyclic(a) && Below(head, |a.inits|) && Below(l, |a.lifetimes|) && Leaves(l, target)
    ensures var outer := a.lifetimes[l.value];
      NothingPastGap(a, head, l, target) <==>
        NothingPastGap(a, outer.sublist, outer.parent, target)
        && (head.None? ==> Silent(a, outer.sublist, outer.parent, target))
  {
    var outer := a.lifetimes[l.value];
    assert HeadAt(a, head, l, target, 0) == head;
    if NothingPastGap(a, head, l, target) {
      forall k, m | 0 <= k < m < Left(a, outer.parent, target)
          && HeadAt(a, outer.sublist, outer.parent, target, k).None?
        ensures ListCalls(a, HeadAt(a, outer.sublist, outer.parent, target, m)) == []
      {
        HeadsOfOuter(a, head, l, target, k + 1);
        HeadsOfOuter(a, head, l, target, m + 1);
      }
      forall m | 0 <= m < Left(a, outer.parent, target) && head.None?
        ensures ListCalls(a, HeadAt(a, outer.sublist, outer.parent, target, m)) == []
      {
        HeadsOfOuter(a, head, l, target, m + 1);
      }
    } else {
      forall k, m | 0 <= k < m < Left(a, l, target) && HeadAt(a, head, l, target, k).None?
          && ListCalls(a, HeadAt(a, head, l, target, m)) != []
        ensures k > 0 ==> !NothingPastGap(a, outer.sublist, outer.parent, target)
        ensures k == 0 ==> !Silent(a, outer.sublist, outer.parent, target)
      {
        HeadsOfOuter(a, head, l, target, m);
        if k > 0 { HeadsOfOuter(a, head, l, target, k); }
      }
    }
  }

  lemma SamePrefix<T>(p: seq<T>, s: seq<T>, t: seq<T>)
    ensures p + s == p + t <==> s == t
  {
    if p + s == p + t {
      assert s == (p + s)[|p|..] == (p + t)[|p|..] == t;
    }
  }

  /** The window makes every call wanted exactly when nothing past an empty list is due one. */
  lemma {:induction false} CompleteIff(a: Arena, head: Option<nat>, l: Option<nat>, target: Option<nat>)
    requires Acyclic(a) && Below(head, |a.inits|) && Below(l, |a.lifetimes|)
    ensures WindowCalls(a, head, l, target) == AllCalls(a, head, l, target) <==> NothingPastGap(a, head, l, target)
    decreases Depth(l)
  {
    if Leaves(l, target) {
      var outer := a.lifetimes[l.value];
      PastGapOfOuter(a, head, l, target);
      CompleteIff(a, outer.sublist, outer.parent, target);
      SilentIff(a, outer.sublist, outer.parent, target);
      if head.None? {
        WindowIsPrefix(a, outer.sublist, outer.parent, target);
      } else {
        SamePrefix(ListCalls(a, head), WindowCalls(a, outer.sublist, outer.parent, target),
                   AllCalls(a, outer.sublist, outer.parent, target));
      }
    }
  }

  /** An object of the outermost of three lifetimes, the middle one having none of its own */
  const THREE_LIFETIMES := Arena(
    [Init(None, Some(0), Some(7), false, false), Init(None, Some(2), Some(7), false, false)],
    [Lifetime(None, None), Lifetime(Some(0), Some(0)), Lifetime(Some(1), None)])

  /** Leaving all three from the innermost, the outer object is forgotten. */
  lemma GapLosesCall()
    ensures Acyclic(THREE_LIFETIMES)
    ensures WindowCalls(THREE_LIFETIMES, Some(1), Some(2), None) == [Call(7, 1)]
    ensures AllCalls(THREE_LIFETIMES, Some(1), Some(2), None) == [Call(7, 1), Call(7, 0)]
  {
    var a := THREE_LIFETIMES;
    assert ListCalls(a, Some(0)) == [Call(7, 0)];
    assert ListCalls(a, Some(1)) == [Call(7, 1)];
    assert AllCalls(a, None, None, None) == [];
    assert AllCalls(a, None, Some(0), None) == [];
    assert AllCalls(a, Some(0), Some(0), None) == [Call(7, 0)];
    assert AllCalls(a, None, Some(1), None) == [Call(7, 0)];
  }

  // ---------------------------------------------------------------- the chain behind a head

  /** A destruction list stays in one lifetime, and the list it continues in is its parent's. */
  ghost predicate WellFormed(a: Arena) {
    && Acyclic(a)
    && (forall i :: 0 <= i < |a.inits| && a.inits[i].next.Some? ==>
          a.inits[a.inits[i].next.value].lifetime == a.inits[i].lifetime)
    && (forall l :: 0 <= l < |a.lifetimes| && a.lifetimes[l].sublist.Some? ==>
          a.inits[a.lifetimes[l].sublist.value].lifetime == a.lifetimes[l].parent)
  }

  function Home(a: Arena, head: Option<nat>): Option<nat>
    requires Below(head, |a.inits|)
  {
    if head.Some? then a.inits[head.value].lifetime else None
  }

  /** The object destroyed after i: the next on its list, or the first of the parent's. */
  function Next(a: Arena, i: nat): (n: Option<nat>)
    requires WellFormed(a) && i < |a.inits|
    ensures Below(n, |a.inits|)
    ensures
      || Depth(Home(a, n)) < Depth(a.inits[i].lifetime)
      || (Depth(Home(a, n)) == Depth(a.inits[i].lifetime) && Below(n, i))
  {
    var init := a.inits[i];
    if init.next.Some? || init.lifetime.None? then init.next else a.lifetimes[init.lifetime.value].sublist
  }

  /** Every object that can be reached from the head, in the order of destruction. */
  function Chain(a: Arena, head: Option<nat>): seq<nat>
    requires WellFormed(a) && Below(head, |a.inits|)
    decreases Depth(Home(a, head)), if head.Some? then head.value + 1 else 0
  {
    if head.None? then [] else [head.value] + Chain(a, Next(a, head.value))
  }

  function Calls(a: Arena, objects: seq<nat>): seq<Call> {
    if objects == [] then [] else CallFor(a, objects[0]) + Calls(a, objects[1..])
  }

  /** The objects before the first that belongs to the target lifetime, or to none. */
  function Until(a: Arena, objects: seq<nat>, target: Option<nat>): (before: seq<nat>)
    ensures before <= objects
  {
    if objects == [] || objects[0] >= |a.inits| || !Leaves(a.inits[objects[0]].lifetime, target) then []
    else [objects[0]] + Until(a, objects[1..], target)
  }

  lemma WindowOf(a: Arena, head: Option<nat>, l: Option<nat>, target: Option<nat>)
    requires Acyclic(a) && Below(head, |a.inits|) && Below(l, |a.lifetimes|) && Leaves(l, target) && head.Some?
    ensures WindowCalls(a, head, l, target) ==
      ListCalls(a, head) + WindowCalls(a, a.lifetimes[l.value].sublist, a.lifetimes[l.value].parent, target)
  {
  }

  lemma ListOf(a: Arena, i: nat)
    requires Acyclic(a) && i < |a.inits|
    ensures ListCalls(a, Some(i)) == CallFor(a, i) + ListCalls(a, a.inits[i].next)
  {
  }

  /** The window's calls, one object at a time: the next on the list, or the parent's list. */
  lemma WindowStep(a: Arena, i: nat, l: Option<nat>, target: Option<nat>)
    requires Acyclic(a) && i < |a.inits| && Below(l, |a.lifetimes|) && Leaves(l, target)
    ensures var next := a.inits[i].next; next.Some? ==>
      WindowCalls(a, Some(i), l, target) == CallFor(a, i) + WindowCalls(a, next, l, target)
    ensures var outer := a.lifetimes[l.value]; a.inits[i].next.None? ==>
      WindowCalls(a, Some(i), l, target) == CallFor(a, i) + WindowCalls(a, outer.sublist, outer.parent, target)
  {
    var next, outer := a.inits[i].next, a.lifetimes[l.value];
    ListOf(a, i);
    WindowOf(a, Some(i), l, target);
    var here, list, rest := CallFor(a, i), ListCalls(a, next), WindowCalls(a, outer.sublist, outer.parent, target);
    if next.None? {
      assert here + list == here;
    } else {
      WindowOf(a, next, l, target);
      Regroup(here, list, rest);
    }
  }

  /** In a well formed arena the walk takes the reachable objects in order and stops at the target. */
  lemma {:induction false} WindowTakesUntil(a: Arena, head: Option<nat>, target: Option<nat>)
    requires WellFormed(a) && Below(head, |a.inits|)
    ensures WindowCalls(a, head, Home(a, head), target) == Calls(a, Until(a, Chain(a, head), target))
    decreases Depth(Home(a, head)), if head.Some? then head.value + 1 else 0
  {
    if head.Some? && Leaves(Home(a, head), target) {
      var next := Next(a, head.value);
      WindowStep(a, head.value, Home(a, head), target);
      WindowTakesUntil(a, next, target);
      assert Chain(a, head)[1..] == Chain(a, next);
      var rest := Until(a, Chain(a, next), target);
      assert ([head.value] + rest)[1..] == rest;
    }
  }

  // ---------------------------------------------------------------- which objects, in which order

  /** The chain starts at the head, and goes on from every object until there is nothing further. */
  lemma {:induction false} ChainGoesOn(a: Arena, head: Option<nat>, k: nat)
    requires WellFormed(a) && Below(head, |a.inits|) && k < |Chain(a, head)|
    ensures head == Some(Chain(a, head)[0]) && Chain(a, head)[k] < |a.inits|
    ensures var init := a.inits[Chain(a, head)[k]];
      var next :=
        if init.next.Some? then init.next
        else if init.lifetime.Some? then a.lifetimes[init.lifetime.value].sublist else None;
      if k + 1 < |Chain(a, head)| then next == Some(Chain(a, head)[k + 1]) else next == None
    decreases k
  {
    var next := Next(a, head.value);
    assert Chain(a, head)[1..] == Chain(a, next);
    if k > 0 {
      ChainGoesOn(a, next, k - 1);
      assert Chain(a, head)[k] == Chain(a, next)[k - 1];
    }
    if k == 0 && next.Some? { assert Chain(a, next)[0] == next.value; }
  }

  predicate AreObjects(a: Arena, objects: seq<nat>) {
    forall k :: 0 <= k < |objects| ==> objects[k] < |a.inits|
  }

  /** The walk stops before the first object whose lifetime is the target, or that has none. */
  lemma {:induction false} UntilStops(a: Arena, objects: seq<nat>, target: Option<nat>)
    requires AreObjects(a, objects)
    ensures var n := |Until(a, objects, target)|;
      && n <= |objects|
      && (forall k :: 0 <= k < n ==>
            a.inits[objects[k]].lifetime.Some? && a.inits[objects[k]].lifetime != target)
      && (n < |objects| ==> a.inits[objects[n]].lifetime.None? || a.inits[objects[n]].lifetime == target)
  {
    if objects != [] {
      var rest := objects[1..];
      UntilStops(a, rest, target);
      if Leaves(a.inits[objects[0]].lifetime, target) {
        assert |Until(a, objects, target)| == 1 + |Until(a, rest, target)|;
        forall k | 0 < k <= |Until(a, rest, target)|
          ensures k < |objects| ==> rest[k - 1] == objects[k]
        {
        }
      }
    }
  }

  /** The places of the objects that are due a call */
  function DuePlaces(a: Arena, objects: seq<nat>): (ps: seq<nat>)
    requires AreObjects(a, objects)
    ensures forall j :: 0 <= j < |ps| ==> ps[j] < |objects|
  {
    if objects == [] then []
    else
      var n := |objects| - 1;
      var init := a.inits[objects[n]];
      DuePlaces(a, objects[..n])
      + (if init.destructor.None? || init.freesOnException || init.constructorInit then [] else [n])
  }

  lemma {:induction false} DuePlacesAre(a: Arena, objects: seq<nat>)
    requires AreObjects(a, objects)
    ensures var ps := DuePlaces(a, objects);
      && (forall i, j :: 0 <= i < j < |ps| ==> ps[i] < ps[j])
      && (forall k :: 0 <= k < |objects| ==>
            (k in ps <==> a.inits[objects[k]].destructor.Some?
                          && !a.inits[objects[k]].freesOnException && !a.inits[objects[k]].constructorInit))
  {
    if objects != [] {
      var n := |objects| - 1;
      var init, earlier := a.inits[objects[n]], DuePlaces(a, objects[..n]);
      DuePlacesAre(a, objects[..n]);
      assert n !in earlier;
      if init.destructor.None? || init.freesOnException || init.constructorInit {
        assert DuePlaces(a, objects) == earlier;
      } else {
        assert DuePlaces(a, objects) == earlier + [n];
      }
    }
  }

  lemma {:induction false} CallsLast(a: Arena, objects: seq<nat>)
    requires objects != []
    ensures var n := |objects| - 1; Calls(a, objects) == Calls(a, objects[..n]) + CallFor(a, objects[n])
    decreases |objects|
  {
    var n := |objects| - 1;
    if n == 0 {
      assert objects[1..] == [] && objects[..0] == [];
      assert Calls(a, []) == [];
    } else {
      var rest, init := objects[1..], objects[..n];
      CallsLast(a, rest);
      assert rest[..n - 1] == init[1..] && init[0] == objects[0];
      Regroup(CallFor(a, objects[0]), Calls(a, init[1..]), CallFor(a, objects[n]));
    }
  }

  /** Each of them gets its own destructor's call, in order, and no other object gets one. */
  lemma {:induction false} CallsExactly(a: Arena, objects: seq<nat>)
    requires AreObjects(a, objects)
    ensures var calls, ps := Calls(a, objects), DuePlaces(a, objects);
      && |calls| == |ps|
      && (forall j :: 0 <= j < |ps| ==>
            && a.inits[objects[ps[j]]].destructor.Some?
            && calls[j] == Call(a.inits[objects[ps[j]]].destructor.value, objects[ps[j]]))
    decreases |objects|
  {
    if objects != [] {
      var n := |objects| - 1;
      CallsExactly(a, objects[..n]);
      CallsLast(a, objects);
      var due := DuePlaces(a, objects[..n]);
      forall j | 0 <= j < |due| ensures objects[..n][due[j]] == objects[due[j]] {
      }
    }
  }

  /** a comes after b on every chain */
  predicate Later(a: Arena, i: nat, j: nat)
    requires i < |a.inits| && j < |a.inits|
  {
    var d, e := Depth(a.inits[i].lifetime), Depth(a.inits[j].lifetime);
    d < e || (d == e && i < j)
  }

  lemma {:induction false} ChainDescends(a: Arena, head: Option<nat>, k: nat)
    requires WellFormed(a) && Below(head, |a.inits|) && 0 < k < |Chain(a, head)|
    ensures head.Some? && Chain(a, head)[k] < |a.inits| && Later(a, Chain(a, head)[k], head.value)
    decreases Depth(Home(a, head)), if head.Some? then head.value + 1 else 0
  {
    var next := Next(a, head.value);
    assert Chain(a, head)[k] == Chain(a, next)[k - 1];
    if k > 1 { ChainDescends(a, next, k - 1); }
  }

  /** No object is reached twice, so none is destroyed twice by one window. */
  lemma {:induction false} ChainIsDistinct(a: Arena, head: Option<nat>, j: nat, k: nat)
    requires WellFormed(a) && Below(head, |a.inits|) && j < k < |Chain(a, head)|
    ensures Chain(a, head)[j] != Chain(a, head)[k]
    decreases j
  {
    if j == 0 {
      ChainDescends(a, head, k);
    } else {
      ChainIsDistinct(a, Next(a, head.value), j - 1, k - 1);
    }
  }
}
