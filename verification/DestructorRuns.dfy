/**
 Runs of the statement stack as far as destruction goes: entering and leaving levels, meeting
 automatic objects, and leaving lifetimes (aset_CCcc/src/SET_ast.c, push_stmt and pop_stmt).
 */
module DestructorRuns {
  import opened Basics
  import opened DestructorWindow

  /** own: an object and the temporaries made for it, in the order of their destruction */
  datatype Event = Push | Pop | Construct(own: seq<nat>) | Window(target: Option<nat>)

  /** The chain head, the heads saved at the levels from the top of the stack, and the calls made */
  datatype State = State(head: Option<nat>, saved: seq<Option<nat>>, calls: seq<Call>)

  ghost predicate Sound(a: Arena, s: State) {
    WellFormed(a) && Below(s.head, |a.inits|) && (forall k :: 0 <= k < |s.saved| ==> Below(s.saved[k], |a.inits|))
  }

  predicate InArena(a: Arena, e: Event) {
    e.Construct? ==> |e.own| > 0 && e.own[0] < |a.inits|
  }

  function Step(a: Arena, s: State, e: Event): (t: State)
    requires Sound(a, s) && InArena(a, e)
    ensures Sound(a, t)
  {
    match e
    case Push => s.(saved := [s.head] + s.saved)
    case Pop => if s.saved == [] then s else State(s.saved[0], s.saved[1..], s.calls)
    case Construct(own) => s.(head := Some(own[0]))
    case Window(target) => s.(calls := s.calls + WindowCalls(a, s.head, Home(a, s.head), target))
  }

  // ---------------------------------------------------------------- the stack in place

  class Levels {
    var mostRecent: Option<nat>         // most_recent_destructible_auto
    var destructible: seq<Option<nat>>  // of each stack entry, from the top
    var calls: seq<Call>                // chained at the current level

    constructor ()
      ensures Now() == State(None, [], [])
    {
      mostRecent, destructible, calls := None, [], [];
    }

    function Now(): State
      reads this
    {
      State(mostRecent, destructible, calls)
    }

    method PushStmt(ghost a: Arena)
      requires Sound(a, Now())
      modifies this`destructible
      ensures Now() == Step(a, old(Now()), Push)
    {
      destructible := [mostRecent] + destructible;
    }

    method PopStmt(ghost a: Arena) returns (popped: bool)
      requires Sound(a, Now())
      modifies this
      ensures Now() == Step(a, old(Now()), Pop) && (popped <==> |old(destructible)| > 0)
    {
      popped := |destructible| > 0;
      if popped {
        mostRecent, destructible := destructible[0], destructible[1..];
      }
    }

    method MeetAuto(own: seq<nat>, ghost a: Arena)
      requires Sound(a, Now()) && InArena(a, Construct(own))
      modifies this`mostRecent
      ensures Now() == Step(a, old(Now()), Construct(own))
    {
      mostRecent := Some(own[0]);
    }

    /** create_destructor_call_ast, chained at the current level */
    method CreateDestructorCall(a: Arena, i: nat)
      requires i < |a.inits|
      modifies this`calls
      ensures calls == old(calls) + DestructorCall(a, i)
    {
      var init := a.inits[i];
      if init.destructor.Some? && !init.freesOnException {
        calls := calls + [Call(init.destructor.value, i)];
      }
    }

    /** The loop of process_lifetime_window */
    method Walk(a: Arena, target: Option<nat>)
      requires Acyclic(a) && Below(mostRecent, |a.inits|) && mostRecent.Some?
      modifies this`calls
      ensures calls == old(calls) + WindowCalls(a, mostRecent, Home(a, mostRecent), target)
    {
      var init := mostRecent;
      var lifetime := a.inits[init.value].lifetime;
      ghost var wanted := WindowCalls(a, init, lifetime, target);
      while init.Some? && lifetime.Some? && lifetime != target
        invariant Below(init, |a.inits|) && Below(lifetime, |a.lifetimes|)
        invariant calls + WindowCalls(a, init, lifetime, target) == old(calls) + wanted
        decreases Depth(lifetime), if init.Some? then init.value + 1 else 0
      {
        WindowStep(a, init.value, lifetime, target);
        ghost var made, here := calls, CallFor(a, init.value);
        if !a.inits[init.value].constructorInit { CreateDestructorCall(a, init.value); }
        if a.inits[init.value].next.None? {
          init := a.lifetimes[lifetime.value].sublist;
          lifetime := a.lifetimes[lifetime.value].parent;
        } else {
          init := a.inits[init.value].next;
        }
        assert calls == made + here;
        Regroup(made, here, WindowCalls(a, init, lifetime, target));
      }
    }

    /** process_lifetime_window */
    method ProcessLifetimeWindow(a: Arena, target: Option<nat>)
      requires Sound(a, Now())
      modifies this`calls
      ensures Now() == Step(a, old(Now()), Window(target))
    {
      if mostRecent.Some? { Walk(a, target); }
    }
  }

  // ---------------------------------------------------------------- runs

  function Change(e: Event): int {
    match e case Push => 1 case Pop => -1 case _ => 0
  }

  /** Levels entered less levels left by the events after event k, before event m. */
  function Balance(es: seq<Event>, k: nat, m: nat): int
    requires m <= |es|
    decreases m
  {
    if m <= k + 1 then 0 else Balance(es, k, m - 1) + Change(es[m - 1])
  }

  ghost predicate AllInArena(a: Arena, es: seq<Event>) {
    forall k :: 0 <= k < |es| ==> InArena(a, es[k])
  }

  /** The state after the first n events */
  function After(a: Arena, es: seq<Event>, n: nat): (s: State)
    requires WellFormed(a) && n <= |es| && AllInArena(a, es)
    ensures Sound(a, s)
  {
    if n == 0 then State(None, [], []) else Step(a, After(a, es, n - 1), es[n - 1])
  }

  /** No level is left that was not entered: the source complains of that. */
  ghost predicate Nested(a: Arena, es: seq<Event>) {
    && WellFormed(a) && AllInArena(a, es)
    && (forall n :: 0 <= n < |es| && es[n].Pop? ==> After(a, es, n).saved != [])
  }

  /** The head after leaving d levels */
  function HeadAtLevel(s: State, d: nat): Option<nat>
    requires d <= |s.saved|
  {
    if d == 0 then s.head else s.saved[d - 1]
  }

  /** The level of event k is still open after n events, and would be after leaving d more. */
  ghost predicate OpenAfter(es: seq<Event>, k: nat, n: nat, d: nat)
    requires k < n <= |es|
  {
    (forall j :: k < j <= n ==> Balance(es, k, j) >= 0) && Balance(es, k, n) >= d
  }

  ghost predicate LiveFrom(es: seq<Event>, k: nat, n: nat, d: nat, x: nat)
    requires n <= |es|
  {
    k < n && es[k].Construct? && x in es[k].own && OpenAfter(es, k, n, d)
  }

  /** x was met in a level that is open after n events, and would be after leaving d more. */
  ghost predicate Live(es: seq<Event>, n: nat, d: nat, x: nat)
    requires n <= |es|
  {
    exists k: nat :: LiveFrom(es, k, n, d, x)
  }

  /** The level, before e, of what is found d levels up after it */
  function LevelBefore(e: Event, d: nat): nat {
    match e
    case Push => if d == 0 then 0 else d - 1
    case Pop => d + 1
    case _ => d
  }

  lemma OpenStep(es: seq<Event>, k: nat, n: nat, d: nat)
    requires k < n < |es|
    ensures OpenAfter(es, k, n + 1, d) <==> OpenAfter(es, k, n, LevelBefore(es[n], d))
  {
    assert Balance(es, k, n + 1) == Balance(es, k, n) + Change(es[n]);
    if OpenAfter(es, k, n + 1, d) {
      assert Balance(es, k, n) >= 0;
      forall j | k < j <= n ensures Balance(es, k, j) >= 0 {}
    }
    if OpenAfter(es, k, n, LevelBefore(es[n], d)) {
      forall j | k < j <= n + 1 ensures Balance(es, k, j) >= 0 {
        if j <= n { assert Balance(es, k, j) >= 0; }
      }
    }
  }

  /** An object is live after one more event if it was, or the event met it. */
  lemma LiveStep(es: seq<Event>, n: nat, d: nat, x: nat)
    requires n < |es|
    ensures Live(es, n + 1, d, x) <==>
      Live(es, n, LevelBefore(es[n], d), x) || (es[n].Construct? && d == 0 && x in es[n].own)
  {
    var m := n + 1;
    forall k: nat | k < n
      ensures LiveFrom(es, k, m, d, x) <==> LiveFrom(es, k, n, LevelBefore(es[n], d), x)
    {
      OpenStep(es, k, n, d);
    }
    assert LiveFrom(es, n, m, d, x) <==> es[n].Construct? && d == 0 && x in es[n].own by {
      assert Balance(es, n, n + 1) == 0;
      assert OpenAfter(es, n, n + 1, 0);
    }
  }

  lemma HeadStep(a: Arena, s: State, e: Event, d: nat)
    requires Sound(a, s) && InArena(a, e) && (e.Pop? ==> s.saved != []) && d <= |Step(a, s, e).saved|
    ensures LevelBefore(e, d) <= |s.saved|
    ensures HeadAtLevel(Step(a, s, e), d) ==
      if e.Construct? && d == 0 then Some(e.own[0]) else HeadAtLevel(s, LevelBefore(e, d))
  {
  }

  ghost predicate Reached(a: Arena, s: State, d: nat, x: nat)
    requires Sound(a, s) && d <= |s.saved|
  {
    x in Chain(a, HeadAtLevel(s, d))
  }

  lemma ReachedStep(a: Arena, s: State, e: Event, d: nat, x: nat)
    requires Sound(a, s) && InArena(a, e) && (e.Pop? ==> s.saved != []) && d <= |Step(a, s, e).saved|
    ensures LevelBefore(e, d) <= |s.saved|
    ensures Reached(a, Step(a, s, e), d, x) <==>
      if e.Construct? && d == 0 then x in Chain(a, Some(e.own[0])) else Reached(a, s, LevelBefore(e, d), x)
  {
    HeadStep(a, s, e, d);
  }

  // ---------------------------------------------------------------- objects of levels left

  /** What can be reached from the object met by event n is its own or met in a level still open. */
  ghost predicate LinksOnlyLive(a: Arena, es: seq<Event>, n: nat)
    requires Nested(a, es) && n < |es|
  {
    es[n].Construct? ==> forall y :: y in Chain(a, Some(es[n].own[0])) ==> y in es[n].own || Live(es, n, 0, y)
  }

  /** Its own objects, and all those met in levels still open, can be reached from it. */
  ghost predicate LinksAllLive(a: Arena, es: seq<Event>, n: nat)
    requires Nested(a, es) && n < |es|
  {
    es[n].Construct? ==> forall y :: y in es[n].own || Live(es, n, 0, y) ==> y in Chain(a, Some(es[n].own[0]))
  }

  /** After n events, what can be reached d levels up was met in a level that is then open. */
  ghost predicate OnlyLiveReached(a: Arena, es: seq<Event>, n: nat)
    requires Nested(a, es) && n <= |es|
  {
    forall d: nat, x: nat :: d <= |After(a, es, n).saved| && Reached(a, After(a, es, n), d, x) ==> Live(es, n, d, x)
  }

  ghost predicate AllLiveReached(a: Arena, es: seq<Event>, n: nat)
    requires Nested(a, es) && n <= |es|
  {
    forall d: nat, x: nat :: d <= |After(a, es, n).saved| && Live(es, n, d, x) ==> Reached(a, After(a, es, n), d, x)
  }

  lemma {:induction false} OnlyLive(a: Arena, es: seq<Event>, n: nat, d: nat, x: nat)
    requires Nested(a, es) && n <= |es| && d <= |After(a, es, n).saved|
    requires forall k :: 0 <= k < n ==> LinksOnlyLive(a, es, k)
    ensures Reached(a, After(a, es, n), d, x) ==> Live(es, n, d, x)
  {
    if n > 0 {
      var m := n - 1;
      ReachedStep(a, After(a, es, m), es[m], d, x);
      LiveStep(es, m, d, x);
      assert LinksOnlyLive(a, es, m);
      OnlyLive(a, es, m, LevelBefore(es[m], d), x);
    }
  }

  lemma {:induction false} AllLive(a: Arena, es: seq<Event>, n: nat, d: nat, x: nat)
    requires Nested(a, es) && n <= |es| && d <= |After(a, es, n).saved|
    requires forall k :: 0 <= k < n ==> LinksAllLive(a, es, k)
    ensures Live(es, n, d, x) ==> Reached(a, After(a, es, n), d, x)
  {
    if n > 0 {
      var m := n - 1;
      ReachedStep(a, After(a, es, m), es[m], d, x);
      LiveStep(es, m, d, x);
      assert LinksAllLive(a, es, m);
      AllLive(a, es, m, LevelBefore(es[m], d), x);
    }
  }

  /** With both, an object can be reached exactly when the level in which it was met is still open. */
  lemma LiveIff(a: Arena, es: seq<Event>, n: nat, d: nat, x: nat)
    requires Nested(a, es) && n <= |es| && d <= |After(a, es, n).saved|
    requires forall k :: 0 <= k < n ==> LinksOnlyLive(a, es, k) && LinksAllLive(a, es, k)
    ensures Reached(a, After(a, es, n), d, x) <==> Live(es, n, d, x)
  {
    OnlyLive(a, es, n, d, x);
    AllLive(a, es, n, d, x);
  }

  /** What the front end does is enough: an object is linked to what the head reaches when it is met. */
  lemma {:induction false} HeadLinksSuffice(a: Arena, es: seq<Event>, n: nat)
    requires Nested(a, es) && n <= |es|
    requires forall k, y :: 0 <= k < n && es[k].Construct? && y in Chain(a, Some(es[k].own[0])) ==>
      y in es[k].own || Reached(a, After(a, es, k), 0, y)
    ensures forall k :: 0 <= k < n ==> LinksOnlyLive(a, es, k)
  {
    if n > 0 {
      var m := n - 1;
      HeadLinksSuffice(a, es, m);
      if es[m].Construct? {
        forall y | y in Chain(a, Some(es[m].own[0])) ensures y in es[m].own || Live(es, m, 0, y) {
          OnlyLive(a, es, m, 0, y);
        }
      }
      assert LinksOnlyLive(a, es, m);
    }
  }

  /**
   Objects of levels left never reappear, at any level and after any number of events, exactly when
   no object is linked to one of a level left at the moment it is met. Gaps do no harm here.
   */
  lemma NoneReappearsIff(a: Arena, es: seq<Event>)
    requires Nested(a, es)
    ensures (forall n :: 0 <= n <= |es| ==> OnlyLiveReached(a, es, n)) <==>
            (forall n :: 0 <= n < |es| ==> LinksOnlyLive(a, es, n))
  {
    if forall n :: 0 <= n < |es| ==> LinksOnlyLive(a, es, n) {
      forall n, d: nat, x: nat | 0 <= n <= |es| && d <= |After(a, es, n).saved| && Reached(a, After(a, es, n), d, x)
        ensures Live(es, n, d, x)
      {
        OnlyLive(a, es, n, d, x);
      }
    }
    if forall n :: 0 <= n <= |es| ==> OnlyLiveReached(a, es, n) {
      forall n, y | 0 <= n < |es| && es[n].Construct? && y in Chain(a, Some(es[n].own[0]))
        ensures y in es[n].own || Live(es, n, 0, y)
      {
        var m := n + 1;
        assert OnlyLiveReached(a, es, m);
        ReachedStep(a, After(a, es, n), es[n], 0, y);
        LiveStep(es, n, 0, y);
      }
    }
  }

  /** No object of an open level is lost exactly when each new object is linked to all of them. */
  lemma NoneLostIff(a: Arena, es: seq<Event>)
    requires Nested(a, es)
    ensures (forall n :: 0 <= n <= |es| ==> AllLiveReached(a, es, n)) <==>
            (forall n :: 0 <= n < |es| ==> LinksAllLive(a, es, n))
  {
    if forall n :: 0 <= n < |es| ==> LinksAllLive(a, es, n) {
      forall n, d: nat, x: nat | 0 <= n <= |es| && d <= |After(a, es, n).saved| && Live(es, n, d, x)
        ensures Reached(a, After(a, es, n), d, x)
      {
        AllLive(a, es, n, d, x);
      }
    }
    if forall n :: 0 <= n <= |es| ==> AllLiveReached(a, es, n) {
      forall n, y: nat | 0 <= n < |es| && es[n].Construct? && (y in es[n].own || Live(es, n, 0, y))
        ensures y in Chain(a, Some(es[n].own[0]))
      {
        var m := n + 1;
        assert AllLiveReached(a, es, m);
        ReachedStep(a, After(a, es, n), es[n], 0, y);
        LiveStep(es, n, 0, y);
      }
    }
  }

  /** t is d levels above the level entered from s. */
  ghost predicate Above(t: State, d: int, s: State) {
    0 <= d && |t.saved| == |s.saved| + 1 + d && t.saved[d..] == [s.head] + s.saved
  }

  lemma StepKeepsAbove(a: Arena, t: State, e: Event, d: int, s: State)
    requires Sound(a, t) && InArena(a, e) && Above(t, d, s) && d + Change(e) >= 0
    ensures Above(Step(a, t, e), d + Change(e), s)
  {
    if e.Pop? { assert t.saved[1..][d - 1..] == t.saved[d..]; }
    if e.Push? { assert ([t.head] + t.saved)[d + 1..] == t.saved[d..]; }
  }

  lemma {:induction false} EnteredFrom(a: Arena, es: seq<Event>, k: nat, n: nat)
    requires WellFormed(a) && AllInArena(a, es) && k < n <= |es| && es[k].Push? && OpenAfter(es, k, n, 0)
    ensures Above(After(a, es, n), Balance(es, k, n), After(a, es, k))
  {
    if n > k + 1 {
      assert Balance(es, k, n - 1) >= 0;
      OpenStep(es, k, n - 1, 0);
      EnteredFrom(a, es, k, n - 1);
      StepKeepsAbove(a, After(a, es, n - 1), es[n - 1], Balance(es, k, n - 1), After(a, es, k));
    } else {
      var s := After(a, es, k);
      assert ([s.head] + s.saved)[0..] == [s.head] + s.saved;
    }
  }

  /** Leaving a level restores the chain head and the stack of when it was entered. */
  lemma LevelRestores(a: Arena, es: seq<Event>, k: nat, n: nat)
    requires WellFormed(a) && AllInArena(a, es) && k < n < |es| && es[k].Push? && es[n].Pop?
    requires OpenAfter(es, k, n, 0) && Balance(es, k, n) == 0
    ensures var s, t := After(a, es, k), After(a, es, n + 1);
      t.head == s.head && t.saved == s.saved
  {
    EnteredFrom(a, es, k, n);
    var s, t := After(a, es, k), After(a, es, n);
    assert t.saved == t.saved[0..] == [s.head] + s.saved;
  }

  /** Every call of a window is for an object of a level still open, each object at most once. */
  lemma CallsAreLive(a: Arena, es: seq<Event>, n: nat, target: Option<nat>)
    requires Nested(a, es) && n <= |es|
    requires forall k :: 0 <= k < n ==> LinksOnlyLive(a, es, k)
    ensures var head := After(a, es, n).head;
      WindowCalls(a, head, Home(a, head), target) == Calls(a, Until(a, Chain(a, head), target))
    ensures forall x :: x in Until(a, Chain(a, After(a, es, n).head), target) ==> Live(es, n, 0, x)
    ensures var taken := Until(a, Chain(a, After(a, es, n).head), target);
      forall j, k :: 0 <= j < k < |taken| ==> taken[j] != taken[k]
  {
    var head := After(a, es, n).head;
    WindowTakesUntil(a, head, target);
    forall x | x in Until(a, Chain(a, head), target) ensures Live(es, n, 0, x) {
      OnlyLive(a, es, n, 0, x);
    }
    var taken := Until(a, Chain(a, head), target);
    forall j, k | 0 <= j < k < |taken| ensures taken[j] != taken[k] {
      ChainIsDistinct(a, head, j, k);
    }
  }

  const GAP_RUN := [Construct([0]), Push, Construct([1])]

  /** A run over three lifetimes, the middle one empty: nothing reappears, but the outer object is lost. */
  lemma GapRunLosesObject()
    ensures Nested(THREE_LIFETIMES, GAP_RUN) && After(THREE_LIFETIMES, GAP_RUN, 3).head == Some(1)
    ensures forall n :: 0 <= n < 3 ==> LinksOnlyLive(THREE_LIFETIMES, GAP_RUN, n)
    ensures Live(GAP_RUN, 3, 0, 0) && !Reached(THREE_LIFETIMES, After(THREE_LIFETIMES, GAP_RUN, 3), 0, 0)
  {
    var a, es := THREE_LIFETIMES, GAP_RUN;
    GapRunStates();
    assert Balance(es, 0, 1) == 0 && Balance(es, 0, 2) == 1 && Balance(es, 0, 3) == 1;
    assert LiveFrom(es, 0, 3, 0, 0);
  }

  lemma GapRunStates()
    ensures Nested(THREE_LIFETIMES, GAP_RUN) && After(THREE_LIFETIMES, GAP_RUN, 3).head == Some(1)
    ensures Chain(THREE_LIFETIMES, Some(0)) == [0] && Chain(THREE_LIFETIMES, Some(1)) == [1]
  {
    assert After(THREE_LIFETIMES, GAP_RUN, 2).head == Some(0);
  }
}
