/**
 The grouping of declarators into declarations: source sequence entries that share the end of
 their declaration specifiers are linked under one declaration
 (aset_CCcc/src/SET_ast.c, scan_declarator_chain and make_declaration_tree).
 */
module Declarators {
  import opened Basics

  /** A source position: its sequence number (0 for none) and mapped column */
  datatype Pos = Pos(line: nat, column: nat)

  /** decl_pos_of: where the specifiers and the declarator of an entry end. */
  datatype DeclPos = DeclPos(specifiersEnd: Pos, declaratorEnd: Pos)

  /** What link_declarator_list makes of an entry's entity */
  datatype Tree = Node(id: nat) | Incomplete | Missing

  datatype Entry =
    | Declarator(pos: Option<DeclPos>, tree: Tree, initializerEnd: Option<Pos>)
    | Definition(specifiersEnd: Option<Pos>, closing: Pos)   // the end of a class or enum definition
    | Other                                                  // an entry that declares nothing

  /** Two declarators belong to one declaration: the positions exist, are not null, and agree. */
  predicate SameSpecifiers(e: Entry, f: Entry) {
    && e.Declarator? && f.Declarator? && e.pos.Some? && f.pos.Some?
    && f.pos.value.specifiersEnd.line != 0
    && e.pos.value.specifiersEnd == f.pos.value.specifiersEnd
  }

  /** The declarator f continues the declaration of the type definition e; null positions agree too. */
  predicate Joins(e: Entry, f: Entry) {
    && e.Definition? && f.Declarator? && e.specifiersEnd.Some? && f.pos.Some?
    && e.specifiersEnd.value == f.pos.value.specifiersEnd
  }

  predicate JoinsNext(list: seq<Entry>, i: nat) {
    i + 1 < |list| && Joins(list[i], list[i + 1])
  }

  // ---------------------------------------------------------------- the specification

  datatype Span = Span(first: nat, last: nat)

  predicate InSpan(s: Span, i: nat) {
    s.first <= i <= s.last
  }

  /** All of a..b carry the specifiers of a, and the next entry, if any, does not. */
  ghost predicate MaximalRun(list: seq<Entry>, a: nat, b: nat) {
    && a <= b < |list|
    && (forall k :: a < k <= b ==> SameSpecifiers(list[a], list[k]))
    && (b == |list| - 1 || !SameSpecifiers(list[a], list[b + 1]))
  }

  /** The last entry of the run that starts at a, searching from b. */
  function RunEnd(list: seq<Entry>, a: nat, b: nat): (last: nat)
    requires a <= b < |list|
    requires forall k :: a < k <= b ==> SameSpecifiers(list[a], list[k])
    ensures b <= last && MaximalRun(list, a, last)
    decreases |list| - b
  {
    if b < |list| - 1 && SameSpecifiers(list[a], list[b + 1]) then RunEnd(list, a, b + 1) else b
  }

  lemma RunHolds(list: seq<Entry>, a: nat, b: nat, k: nat)
    requires MaximalRun(list, a, b) && a < |list| && list[a].Declarator? && a <= k <= b
    ensures list[k].Declarator? && (a < k ==> list[k].pos.Some?)
  {
    assert a < k ==> SameSpecifiers(list[a], list[k]);
  }

  lemma RunEndIsUnique(list: seq<Entry>, a: nat, b: nat, c: nat)
    requires MaximalRun(list, a, b) && MaximalRun(list, a, c)
    ensures b == c
  {
    if b < c { LongerRun(list, a, b, c); }
    if c < b { LongerRun(list, a, c, b); }
  }

  lemma LongerRun(list: seq<Entry>, a: nat, b: nat, c: nat)
    requires a <= b < c && MaximalRun(list, a, c)
    ensures !MaximalRun(list, a, b)
  {
    assert SameSpecifiers(list[a], list[b + 1]);
  }

  /** The last entry of the declaration that starts at i. */
  function GroupEnd(list: seq<Entry>, i: nat): (last: nat)
    requires i < |list|
    ensures i <= last < |list|
  {
    if list[i].Declarator? then RunEnd(list, i, i)
    else if JoinsNext(list, i) then RunEnd(list, i + 1, i + 1)
    else i
  }

  /** A run of declarators, or a type definition with the run that joins it. */
  ghost predicate Group(list: seq<Entry>, s: Span) {
    && s.first <= s.last < |list| && !list[s.first].Other?
    && (if list[s.first].Declarator? then MaximalRun(list, s.first, s.last)
        else if JoinsNext(list, s.first) then MaximalRun(list, s.first + 1, s.last)
        else s.last == s.first)
  }

  /** The declarations of the entries from i on. */
  function Groups(list: seq<Entry>, i: nat): seq<Span>
    decreases |list| - i
  {
    if i >= |list| then []
    else if list[i].Other? then Groups(list, i + 1)
    else [Span(i, GroupEnd(list, i))] + Groups(list, GroupEnd(list, i) + 1)
  }

  /** The nodes of the entries a..b, in list order. */
  function Nodes(list: seq<Entry>, a: nat, b: nat): seq<nat>
    decreases b - a
  {
    if a >= b || a >= |list| then []
    else NodeOf(list[a]) + Nodes(list, a + 1, b)
  }

  /** A declaration: its declarators, whether it has any, and where it ends if it has a position. */
  datatype Declaration = Declaration(span: Span, kids: seq<nat>, withDeclarator: bool, end: Option<Pos>)

  /** A run's declaration reaches to the end of its last declarator or initializer. */
  function RunEndPos(list: seq<Entry>, s: Span): Option<Pos>
    requires s.first <= s.last < |list| && list[s.first].Declarator? && list[s.last].Declarator?
    requires s.first < s.last ==> list[s.last].pos.Some?
  {
    var last := list[s.last];
    if list[s.first].pos.None? then None
    else if last.initializerEnd.Some? then last.initializerEnd
    else if s.first == s.last && last.tree.Incomplete? then Some(last.pos.value.specifiersEnd)
    else Some(last.pos.value.declaratorEnd)
  }

  /** A definition's reaches to the end of the last declarator that joins it, if any does. */
  function HeadEndPos(list: seq<Entry>, s: Span): Option<Pos>
    requires s.first <= s.last < |list| && list[s.first].Definition?
    requires s.first < s.last ==> list[s.last].Declarator? && list[s.last].pos.Some?
  {
    if s.first < s.last then Some(list[s.last].pos.value.declaratorEnd)
    else if list[s.first].specifiersEnd.Some? then list[s.first].specifiersEnd
    else Some(list[s.first].closing)
  }

  lemma LastOfGroup(list: seq<Entry>, s: Span)
    requires Group(list, s)
    ensures s.first < s.last ==> list[s.last].Declarator? && list[s.last].pos.Some?
  {
    var start := if list[s.first].Declarator? then s.first else s.first + 1;
    assert start < s.last ==> SameSpecifiers(list[start], list[s.last]);
  }

  function DeclarationOf(list: seq<Entry>, s: Span): Declaration
    requires Group(list, s)
  {
    LastOfGroup(list, s);
    var kids := Nodes(list, s.first, s.last + 1);
    if list[s.first].Declarator? then Declaration(s, kids, kids != [], RunEndPos(list, s))
    else Declaration(s, kids, s.first < s.last, HeadEndPos(list, s))
  }

  // ---------------------------------------------------------------- what the groups are

  lemma {:induction false} GroupsAreGroups(list: seq<Entry>, i: nat, g: nat)
    requires g < |Groups(list, i)|
    ensures i <= Groups(list, i)[g].first && Group(list, Groups(list, i)[g])
    decreases |list| - i
  {
    if list[i].Other? {
      GroupsAreGroups(list, i + 1, g);
    } else if g > 0 {
      GroupsAreGroups(list, GroupEnd(list, i) + 1, g - 1);
    }
  }

  /** f goes on with the declaration of the entry e before it. */
  predicate GoesOn(e: Entry, f: Entry) {
    SameSpecifiers(e, f) || Joins(e, f)
  }

  /** No entry after i, up to j, starts a new declaration. */
  ghost predicate Unbroken(list: seq<Entry>, i: nat, j: nat)
    requires i <= j < |list|
  {
    forall k :: i < k <= j ==> GoesOn(list[k - 1], list[k])
  }

  lemma {:induction false} EachDeclaratorGrouped(list: seq<Entry>, i: nat, x: nat)
    requires i <= x < |list| && !list[x].Other?
    ensures exists g :: 0 <= g < |Groups(list, i)| && InSpan(Groups(list, i)[g], x)
    decreases |list| - i
  {
    if list[i].Other? {
      EachDeclaratorGrouped(list, i + 1, x);
      var g :| 0 <= g < |Groups(list, i + 1)| && InSpan(Groups(list, i + 1)[g], x);
      assert InSpan(Groups(list, i)[g], x);
    } else {
      var last := GroupEnd(list, i);
      if x <= last {
        assert InSpan(Groups(list, i)[0], x);
      } else {
        EachDeclaratorGrouped(list, last + 1, x);
        var g :| 0 <= g < |Groups(list, last + 1)| && InSpan(Groups(list, last + 1)[g], x);
        assert Groups(list, i)[g + 1] == Groups(list, last + 1)[g];
      }
    }
  }

  /** The declarations follow each other, so no entry is in two of them. */
  lemma {:induction false} GroupsInOrder(list: seq<Entry>, i: nat, g: nat, h: nat)
    requires g < h < |Groups(list, i)|
    ensures Groups(list, i)[g].last < Groups(list, i)[h].first
    decreases |list| - i
  {
    if list[i].Other? {
      GroupsInOrder(list, i + 1, g, h);
    } else {
      var next := GroupEnd(list, i) + 1;
      if g == 0 { GroupsAreGroups(list, next, h - 1); } else { GroupsInOrder(list, next, g - 1, h - 1); }
    }
  }

  lemma RunGoesOn(list: seq<Entry>, a: nat, b: nat, k: nat)
    requires MaximalRun(list, a, b) && a < k <= b
    ensures SameSpecifiers(list[k - 1], list[k])
  {
    assert SameSpecifiers(list[a], list[k]);
    if a < k - 1 { assert SameSpecifiers(list[a], list[k - 1]); }
  }

  lemma GroupIsUnbroken(list: seq<Entry>, s: Span, i: nat, j: nat)
    requires Group(list, s) && s.first <= i <= j <= s.last
    ensures Unbroken(list, i, j)
  {
    forall k | i < k <= j ensures GoesOn(list[k - 1], list[k]) {
      if list[s.first].Declarator? {
        RunGoesOn(list, s.first, s.last, k);
      } else if s.first + 1 < k {
        RunGoesOn(list, s.first + 1, s.last, k);
      }
    }
  }

  lemma InsideIsDeclarator(list: seq<Entry>, s: Span, i: nat)
    requires Group(list, s) && s.first < i <= s.last
    ensures list[i].Declarator?
  {
    var start := if list[s.first].Declarator? then s.first else s.first + 1;
    assert start < i ==> SameSpecifiers(list[start], list[i]);
  }

  /** What follows a run does not go on with it. */
  lemma RunStops(list: seq<Entry>, a: nat, b: nat)
    requires MaximalRun(list, a, b) && b < |list| - 1 && list[a].Declarator?
    ensures !GoesOn(list[b], list[b + 1])
  {
    if a < b { assert SameSpecifiers(list[a], list[b]); }
  }

  lemma GroupStops(list: seq<Entry>, s: Span)
    requires Group(list, s) && s.last < |list| - 1
    ensures !GoesOn(list[s.last], list[s.last + 1])
  {
    if list[s.first].Declarator? {
      RunStops(list, s.first, s.last);
    } else if JoinsNext(list, s.first) {
      RunStops(list, s.first + 1, s.last);
    } else {
      assert s.last + 1 == s.first + 1;
    }
  }

  lemma BrokenAt(list: seq<Entry>, i: nat, j: nat, k: nat)
    requires i < k <= j < |list| && !GoesOn(list[k - 1], list[k])
    ensures !Unbroken(list, i, j)
  {
  }

  /**
   The partition: two entries share a declaration exactly when every entry after the first of
   them, up to the second, carries the specifier end of the entry before it, which must not be null
   unless that entry is a type definition.
   */
  lemma TogetherIff(list: seq<Entry>, i: nat, j: nat)
    requires i <= j < |list| && !list[i].Other?
    ensures (exists g :: 0 <= g < |Groups(list, 0)| && InSpan(Groups(list, 0)[g], i) && InSpan(Groups(list, 0)[g], j))
       <==> Unbroken(list, i, j)
  {
    var groups := Groups(list, 0);
    EachDeclaratorGrouped(list, 0, i);
    var g :| 0 <= g < |groups| && InSpan(groups[g], i);
    GroupsAreGroups(list, 0, g);
    var s := groups[g];
    if s.last < j {
      GroupStops(list, s);
      BrokenAt(list, i, j, s.last + 1);
    }
    forall h | 0 <= h < |groups| && InSpan(groups[h], i) && InSpan(groups[h], j) ensures Unbroken(list, i, j) {
      GroupsAreGroups(list, 0, h);
      GroupIsUnbroken(list, groups[h], i, j);
    }
  }

  /** Neighbours share a declaration exactly when their specifiers end at one place, spelled out. */
  lemma NeighboursTogether(list: seq<Entry>, k: nat)
    requires k + 1 < |list| && !list[k].Other?
    ensures var groups := Groups(list, 0);
      (exists g :: 0 <= g < |groups| && InSpan(groups[g], k) && InSpan(groups[g], k + 1))
       <==> match (list[k], list[k + 1])
            case (Declarator(Some(p), _, _), Declarator(Some(q), _, _)) =>
              p.specifiersEnd.line == q.specifiersEnd.line && p.specifiersEnd.column == q.specifiersEnd.column
              && p.specifiersEnd.line != 0
            case (Definition(Some(end), _), Declarator(Some(q), _, _)) =>
              end.line == q.specifiersEnd.line && end.column == q.specifiersEnd.column
            case _ => false
  {
    var next := k + 1;
    TogetherIff(list, k, next);
    if GoesOn(list[k], list[next]) {
      forall i | k < i <= next ensures GoesOn(list[i - 1], list[i]) {}
    } else {
      BrokenAt(list, k, next, next);
    }
  }

  /** A declarator with no position, or with the null one, has no other in its declaration. */
  lemma NullStandsAlone(list: seq<Entry>, i: nat, j: nat, g: nat)
    requires i < |list| && list[i].Declarator? && (list[i].pos.Some? ==> list[i].pos.value.specifiersEnd.line == 0)
    requires g < |Groups(list, 0)| && InSpan(Groups(list, 0)[g], i) && InSpan(Groups(list, 0)[g], j)
    requires j < |list| && list[j].Declarator?
    ensures i == j
  {
    GroupsAreGroups(list, 0, g);
    var s := Groups(list, 0)[g];
    var start := if list[s.first].Declarator? then s.first else s.first + 1;
    NullEndsRun(list, start, s.last, i);
  }

  lemma NullEndsRun(list: seq<Entry>, a: nat, b: nat, i: nat)
    requires MaximalRun(list, a, b) && a <= i <= b
    requires list[i].Declarator? && (list[i].pos.Some? ==> list[i].pos.value.specifiersEnd.line == 0)
    ensures a == b
  {
    if a < b { NullBreaksRun(list, a, b, i); }
  }

  lemma NullBreaksRun(list: seq<Entry>, a: nat, b: nat, i: nat)
    requires a < b < |list| && a <= i <= b
    requires list[i].Declarator? && (list[i].pos.Some? ==> list[i].pos.value.specifiersEnd.line == 0)
    ensures !MaximalRun(list, a, b)
  {
    var k := if a < i then i else b;
    assert !SameSpecifiers(list[a], list[k]);
  }

  /** The nodes linked under the declarations from g on. */
  function AllKids(list: seq<Entry>, spans: seq<Span>, g: nat): seq<nat>
    decreases |spans| - g
  {
    if g >= |spans| then [] else Nodes(list, spans[g].first, spans[g].last + 1) + AllKids(list, spans, g + 1)
  }

  lemma {:induction false} NodesSplit(list: seq<Entry>, a: nat, m: nat, b: nat)
    requires a <= m <= b <= |list|
    ensures Nodes(list, a, b) == Nodes(list, a, m) + Nodes(list, m, b)
    decreases m - a
  {
    if a < m { NodesSplit(list, a + 1, m, b); }
  }

  function NodeOf(e: Entry): seq<nat> {
    if e.Declarator? && e.tree.Node? then [e.tree.id] else []
  }

  lemma NodesLast(list: seq<Entry>, a: nat, b: nat)
    requires a <= b < |list|
    ensures Nodes(list, a, b + 1) == Nodes(list, a, b) + NodeOf(list[b])
  {
    NodesSplit(list, a, b, b + 1);
    assert Nodes(list, b + 1, b + 1) == [];
  }

  lemma {:induction false} AllKidsOfTail(list: seq<Entry>, s: Span, rest: seq<Span>, g: nat)
    ensures AllKids(list, [s] + rest, g + 1) == AllKids(list, rest, g)
    decreases |rest| - g
  {
    if g < |rest| { AllKidsOfTail(list, s, rest, g + 1); }
  }

  lemma AllKidsOfFirst(list: seq<Entry>, s: Span, rest: seq<Span>)
    ensures AllKids(list, [s] + rest, 0) == Nodes(list, s.first, s.last + 1) + AllKids(list, rest, 0)
  {
    AllKidsOfTail(list, s, rest, 0);
  }

  /** Every node is linked under one declaration, in list order. */
  lemma {:induction false} NodesConserved(list: seq<Entry>, i: nat)
    requires i <= |list|
    ensures AllKids(list, Groups(list, i), 0) == Nodes(list, i, |list|)
    decreases |list| - i
  {
    if i < |list| {
      if list[i].Other? {
        NodesConserved(list, i + 1);
      } else {
        var last := GroupEnd(list, i);
        NodesConserved(list, last + 1);
        AllKidsOfFirst(list, Span(i, last), Groups(list, last + 1));
        NodesSplit(list, i, last + 1, |list|);
      }
    }
  }

  // ---------------------------------------------------------------- the scan and the declarations made

  ghost predicate IsDeclaration(list: seq<Entry>, s: Span, d: Declaration) {
    Group(list, s) && d == DeclarationOf(list, s)
  }

  ghost predicate Declared(list: seq<Entry>, groups: seq<Span>, ds: seq<Declaration>) {
    |ds| <= |groups| && forall h :: 0 <= h < |ds| ==> IsDeclaration(list, groups[h], ds[h])
  }

  lemma DeclaredMore(list: seq<Entry>, groups: seq<Span>, ds: seq<Declaration>, s: Span,
                     rest: seq<Span>, d: Declaration)
    requires Declared(list, groups, ds) && groups[|ds|..] == [s] + rest && IsDeclaration(list, s, d)
    ensures Declared(list, groups, ds + [d]) && groups[|ds + [d]|..] == rest
  {
    assert groups[|ds|] == s;
  }

  // ---------------------------------------------------------------- what a declaration holds

  /** A declarator whose entity has a node */
  predicate HasNode(e: Entry) {
    match e
    case Declarator(_, Node(_), _) => true
    case _ => false
  }

  /** The positions from a on, before b, that have nodes */
  function Positions(list: seq<Entry>, a: nat, b: nat): seq<nat>
    decreases b - a
  {
    if a >= b || a >= |list| then []
    else (if HasNode(list[a]) then [a] else []) + Positions(list, a + 1, b)
  }

  ghost predicate Increasing(ps: seq<nat>) {
    forall i, j :: 0 <= i < j < |ps| ==> ps[i] < ps[j]
  }

  lemma {:induction false} PositionsAre(list: seq<Entry>, a: nat, b: nat)
    requires b <= |list|
    ensures Increasing(Positions(list, a, b))
    ensures forall k :: k in Positions(list, a, b) <==> a <= k < b && HasNode(list[k])
    decreases b - a
  {
    if a < b {
      PositionsAre(list, a + 1, b);
      var rest, ps := Positions(list, a + 1, b), Positions(list, a, b);
      if HasNode(list[a]) {
        assert ps == [a] + rest;
        forall i, j | 0 <= i < j < |ps| ensures ps[i] < ps[j] {
          assert ps[j] == rest[j - 1] && rest[j - 1] in rest;
        }
      } else {
        assert ps == rest;
      }
    }
  }

  lemma {:induction false} NodesAt(list: seq<Entry>, a: nat, b: nat)
    requires b <= |list|
    ensures AtPlaces(list, Nodes(list, a, b), Positions(list, a, b))
    decreases b - a
  {
    if a < b {
      NodesAt(list, a + 1, b);
      MorePlaces(list, a, Nodes(list, a + 1, b), Positions(list, a + 1, b));
    }
  }

  ghost predicate AtPlaces(list: seq<Entry>, kids: seq<nat>, ps: seq<nat>) {
    && |kids| == |ps|
    && (forall j :: 0 <= j < |ps| ==> ps[j] < |list| && HasNode(list[ps[j]]) && kids[j] == list[ps[j]].tree.id)
  }

  lemma MorePlaces(list: seq<Entry>, a: nat, kids: seq<nat>, ps: seq<nat>)
    requires a < |list| && AtPlaces(list, kids, ps)
    ensures AtPlaces(list, NodeOf(list[a]) + kids, (if HasNode(list[a]) then [a] else []) + ps)
  {
  }

  /** ps are exactly the positions of the span whose declarators have nodes, and kids are those nodes, in order. */
  ghost predicate KidsAt(list: seq<Entry>, d: Declaration, ps: seq<nat>) {
    && d.span.last < |list| && Increasing(ps) && AtPlaces(list, d.kids, ps)
    && (forall k :: k in ps <==> d.span.first <= k <= d.span.last && HasNode(list[k]))
  }

  lemma SpanAndKids(list: seq<Entry>, s: Span, d: Declaration)
    requires IsDeclaration(list, s, d)
    ensures d.span == s && s.first <= s.last < |list| && d.kids == Nodes(list, s.first, s.last + 1)
  {
  }

  lemma SpanHolds(list: seq<Entry>, s: Span, d: Declaration)
    requires IsDeclaration(list, s, d)
    ensures d.span == s && KidsAt(list, d, Positions(list, s.first, s.last + 1))
  {
    SpanAndKids(list, s, d);
    PositionsAre(list, s.first, s.last + 1);
    NodesAt(list, s.first, s.last + 1);
  }

  /** The places each span holds */
  function PlacesOf(list: seq<Entry>, groups: seq<Span>): (places: seq<seq<nat>>)
    ensures |places| == |groups|
    ensures forall g :: 0 <= g < |groups| ==> places[g] == Positions(list, groups[g].first, groups[g].last + 1)
  {
    seq(|groups|, g requires 0 <= g < |groups| => Positions(list, groups[g].first, groups[g].last + 1))
  }

  lemma EveryPlaceHeld(list: seq<Entry>, k: nat) returns (g: nat)
    requires k < |list| && HasNode(list[k])
    ensures g < |Groups(list, 0)| && k in PlacesOf(list, Groups(list, 0))[g]
  {
    var groups := Groups(list, 0);
    EachDeclaratorGrouped(list, 0, k);
    g :| 0 <= g < |groups| && InSpan(groups[g], k);
    GroupsAreGroups(list, 0, g);
    PositionsAre(list, groups[g].first, groups[g].last + 1);
  }

  lemma PlacesInOrder(list: seq<Entry>, g: nat, h: nat, x: nat, y: nat)
    requires g < h < |Groups(list, 0)|
    requires x in PlacesOf(list, Groups(list, 0))[g] && y in PlacesOf(list, Groups(list, 0))[h]
    ensures x < y
  {
    var groups := Groups(list, 0);
    GroupsInOrder(list, 0, g, h);
    GroupsAreGroups(list, 0, g);
    GroupsAreGroups(list, 0, h);
    PositionsAre(list, groups[g].first, groups[g].last + 1);
    PositionsAre(list, groups[h].first, groups[h].last + 1);
  }

  /**
   What is made of a whole list: each declaration holds the nodes of its span, each in its place, and
   every position of the list with a node is in one declaration, in list order.
   */
  lemma KidsAreTheNodes(list: seq<Entry>, ds: seq<Declaration>) returns (places: seq<seq<nat>>)
    requires Declared(list, Groups(list, 0), ds) && |ds| == |Groups(list, 0)|
    ensures |places| == |ds| && forall g :: 0 <= g < |ds| ==> KidsAt(list, ds[g], places[g])
    ensures forall k :: 0 <= k < |list| && HasNode(list[k]) ==> exists g :: 0 <= g < |ds| && k in places[g]
    ensures forall g, h, x, y :: 0 <= g < h < |ds| && x in places[g] && y in places[h] ==> x < y
  {
    var groups := Groups(list, 0);
    places := PlacesOf(list, groups);
    forall g | 0 <= g < |ds| ensures KidsAt(list, ds[g], places[g]) {
      SpanHolds(list, groups[g], ds[g]);
    }
    forall k | 0 <= k < |list| && HasNode(list[k]) ensures exists g :: 0 <= g < |ds| && k in places[g] {
      var g := EveryPlaceHeld(list, k);
    }
    forall g, h, x, y | 0 <= g < h < |ds| && x in places[g] && y in places[h] ensures x < y {
      PlacesInOrder(list, g, h, x, y);
    }
  }

  /** When a run's declaration counts as one with declarators, and where it ends */
  lemma RunEnds(list: seq<Entry>, s: Span, d: Declaration)
    requires IsDeclaration(list, s, d) && list[s.first].Declarator?
    ensures d.span == s && s.first <= s.last < |list| && list[s.last].Declarator?
    ensures d.withDeclarator <==> exists k :: s.first <= k <= s.last && HasNode(list[k])
    ensures list[s.first].pos.None? ==> d.end.None?
    ensures list[s.first].pos.Some? ==>
      var last := list[s.last];
      last.pos.Some?
      && d.end == if last.initializerEnd.Some? then last.initializerEnd
                  else if s.first == s.last && last.tree.Incomplete? then Some(last.pos.value.specifiersEnd)
                  else Some(last.pos.value.declaratorEnd)
  {
    LastOfGroup(list, s);
    PositionsAre(list, s.first, s.last + 1);
    NodesAt(list, s.first, s.last + 1);
    var ps := Positions(list, s.first, s.last + 1);
    assert ps != [] ==> ps[0] in ps;
  }

  /** The same for the declaration of a type definition */
  lemma DefinitionEnds(list: seq<Entry>, s: Span, d: Declaration)
    requires IsDeclaration(list, s, d) && list[s.first].Definition?
    ensures d.span == s && s.first <= s.last < |list|
    ensures d.withDeclarator <==> s.first < s.last
    ensures s.first < s.last ==>
      list[s.last].Declarator? && list[s.last].pos.Some? && d.end == Some(list[s.last].pos.value.declaratorEnd)
    ensures s.first == s.last ==>
      d.end == if list[s.first].specifiersEnd.Some? then list[s.first].specifiersEnd else Some(list[s.first].closing)
  {
    LastOfGroup(list, s);
  }

  // ---------------------------------------------------------------- the code

  /** The end recorded once an entry has been linked */
  function EndAfter(e: Entry, isFirst: bool, before: Pos): Pos
    requires e.Declarator?
  {
    if e.initializerEnd.Some? then e.initializerEnd.value
    else if e.pos.Some? && !(isFirst && e.tree.Incomplete?) then e.pos.value.declaratorEnd
    else before
  }

  /** The body of the loop of link_declarator_list */
  method LinkOne(entry: Entry, isFirst: bool, kids0: seq<nat>, end0: Pos) returns (kids: seq<nat>, endPos: Pos)
    requires entry.Declarator?
    ensures kids == kids0 + NodeOf(entry) && endPos == EndAfter(entry, isFirst, end0)
  {
    kids, endPos := kids0, end0;
    if entry.tree.Node? { kids := kids + [entry.tree.id]; }
    if entry.pos.Some? && !(isFirst && entry.tree.Incomplete?) {
      endPos := entry.pos.value.declaratorEnd;
    }
    if entry.initializerEnd.Some? { endPos := entry.initializerEnd.value; }
  }

  lemma HeadHasNoNode(list: seq<Entry>, a: nat, b: nat)
    requires a < b && a < |list| && list[a].Definition?
    ensures Nodes(list, a, b) == Nodes(list, a + 1, b)
  {
    assert NodeOf(list[a]) + Nodes(list, a + 1, b) == Nodes(list, a + 1, b);
  }

  lemma ReplaceLast(ds: seq<Declaration>, d: Declaration)
    requires ds != []
    ensures ds[|ds| - 1 := d] == ds[..|ds| - 1] + [d]
  {
  }

  class Chain {
    var start: Option<nat>              // start_of_declarator_chain
    var end: Option<nat>                // end_of_declarator_chain
    var pendingHead: Option<nat>        // pending_declaration_head, as its place among the declarations
    var declarations: seq<Declaration>  // chained at the current level

    constructor ()
      ensures Idle() && declarations == []
    {
      start, end, pendingHead, declarations := None, None, None, [];
    }

    /** No declaration is waiting for its last declarator. */
    predicate Idle()
      reads this
    {
      start.None? && end.None? && pendingHead.None?
    }

    /** The run a..b has been scanned. */
    ghost predicate Scanned(list: seq<Entry>, a: nat, b: nat)
      reads this
    {
      start == Some(a) && end == Some(b) && MaximalRun(list, a, b) && list[a].Declarator?
    }

    /** The declaration s waits for its last declarator; if it has a head, that is chained already. */
    ghost predicate Waiting(list: seq<Entry>, s: Span)
      reads this
    {
      && Group(list, s)
      && (if list[s.first].Declarator? then pendingHead.None? && Scanned(list, s.first, s.last)
          else HeadWaits(list, s) && Scanned(list, s.first + 1, s.last))
    }

    ghost predicate HeadWaits(list: seq<Entry>, s: Span)
      requires Group(list, s)
      reads this
    {
      && declarations != [] && pendingHead == Some(|declarations| - 1)
      && declarations[|declarations| - 1] == DeclarationOf(list, s).(kids := [])
    }

    /** The declarations that have all their declarators */
    ghost function Complete(): seq<Declaration>
      reads this
    {
      if pendingHead.Some? && declarations != [] then declarations[..|declarations| - 1] else declarations
    }

    /** scan_declarator_chain */
    method Scan(list: seq<Entry>, first: nat)
      requires first < |list| && list[first].Declarator?
      modifies this`start, this`end
      ensures Scanned(list, first, RunEnd(list, first, first))
    {
      start, end := Some(first), Some(first);
      var scan := first + 1;
      while scan < |list|
        invariant first < scan <= |list|
        invariant start == Some(first) && end == Some(scan - 1)
        invariant forall k :: first < k < scan ==> SameSpecifiers(list[first], list[k])
      {
        if SameSpecifiers(list[first], list[scan]) { end := Some(scan); } else { break; }
        scan := scan + 1;
      }
      RunEndIsUnique(list, first, RunEnd(list, first, first), end.value);
    }

    /** link_declarator_list */
    method LinkDeclarators(list: seq<Entry>, ghost a: nat, ghost b: nat, before: Pos)
      returns (kids: seq<nat>, endPos: Pos)
      requires Scanned(list, a, b)
      requires list[a].pos.Some? ==> before == list[a].pos.value.specifiersEnd
      modifies this`start, this`end
      ensures start.None? && end.None?
      ensures kids == Nodes(list, a, b + 1)
      ensures list[a].pos.Some? ==>
        list[b].Declarator? && list[b].pos.Some? && Some(endPos) == RunEndPos(list, Span(a, b))
    {
      var i, last := start.value, end.value;
      kids, endPos := LinkOne(list[i], true, [], before);
      NodesLast(list, a, i);
      while i != last
        invariant a <= i <= b == last && kids == Nodes(list, a, i + 1)
        invariant list[i].Declarator? && (i == a ==> endPos == EndAfter(list[a], true, before))
        invariant i > a ==> list[i].pos.Some? && endPos == EndAfter(list[i], false, before)
        decreases last - i
      {
        i := i + 1;
        RunHolds(list, a, b, i);
        NodesLast(list, a, i);
        kids, endPos := LinkOne(list[i], false, kids, endPos);
      }
      start, end := None, None;
    }

    /** make_declaration_tree */
    method MakeDeclaration(list: seq<Entry>, ghost s: Span)
      requires Waiting(list, s)
      modifies this
      ensures Idle() && declarations == old(Complete()) + [DeclarationOf(list, s)]
    {
      if pendingHead.Some? { FillHead(list, s); } else { NewDeclaration(list, s); }
    }

    /** The run's nodes go under the head that has been chained already. */
    method FillHead(list: seq<Entry>, ghost s: Span)
      requires Waiting(list, s) && list[s.first].Definition?
      modifies this
      ensures Idle() && declarations == old(Complete()) + [DeclarationOf(list, s)]
    {
      var head := pendingHead.value;
      var kids, endPos := LinkDeclarators(list, s.first + 1, s.last, list[start.value].pos.value.specifiersEnd);
      HeadHasNoNode(list, s.first, s.last + 1);
      ReplaceLast(declarations, declarations[head].(kids := kids));
      declarations := declarations[head := declarations[head].(kids := kids)];
      pendingHead := None;
    }

    /** A declaration of its own for the run */
    method NewDeclaration(list: seq<Entry>, ghost s: Span)
      requires Waiting(list, s) && list[s.first].Declarator?
      modifies this
      ensures Idle() && declarations == old(Complete()) + [DeclarationOf(list, s)]
    {
      var span := Span(start.value, end.value);
      var pos := list[span.first].pos;
      var before := if pos.Some? then pos.value.specifiersEnd else Pos(0, 0);
      var kids, endPos := LinkDeclarators(list, s.first, s.last, before);
      declarations := declarations + [Declaration(span, kids, kids != [], if pos.Some? then Some(endPos) else None)];
    }

    /** What is made of a declarator entry: scan when idle, and make the declaration at its last. */
    method ProcessDeclarator(list: seq<Entry>, i: nat, ghost s: Span)
      requires i < |list| && list[i].Declarator? && InSpan(s, i)
      requires Waiting(list, s) || (Idle() && s == Span(i, RunEnd(list, i, i)))
      modifies this
      ensures if i == s.last then Idle() && declarations == old(Complete()) + [DeclarationOf(list, s)]
              else Waiting(list, s) && Complete() == old(Complete())
    {
      if end.None? { Scan(list, i); }
      if end == Some(i) { MakeDeclaration(list, s); }
    }

    /** The end of a type definition: its declaration is chained at once, for declarators to join. */
    method EndDefinition(list: seq<Entry>, i: nat)
      requires i < |list| && list[i].Definition? && Idle()
      modifies this
      ensures var s := Span(i, GroupEnd(list, i));
        if JoinsNext(list, i) then Waiting(list, s) && Complete() == old(declarations)
        else Idle() && Group(list, s) && declarations == old(declarations) + [DeclarationOf(list, s)]
    {
      var last := i;
      var endPos := if list[i].specifiersEnd.Some? then list[i].specifiersEnd.value else list[i].closing;
      if i + 1 < |list| && Joins(list[i], list[i + 1]) {
        Scan(list, i + 1);
        pendingHead := Some(|declarations|);
        last := end.value;
        assert i + 1 < last ==> SameSpecifiers(list[i + 1], list[last]);
        endPos := list[last].pos.value.declaratorEnd;
      }
      assert Nodes(list, i, i + 1) == [] + Nodes(list, i + 1, i + 1);
      declarations := declarations + [Declaration(Span(i, last), [], i < last, Some(endPos))];
    }

    /** One entry of the declaration s, its first when idle */
    method ProcessEntry(list: seq<Entry>, i: nat, ghost s: Span)
      requires i < |list| && !list[i].Other? && InSpan(s, i)
      requires if Idle() then s == Span(i, GroupEnd(list, i)) else Waiting(list, s) && s.first < i
      modifies this
      ensures if i == s.last then Idle() && Group(list, s) && declarations == old(Complete()) + [DeclarationOf(list, s)]
              else Waiting(list, s) && Complete() == old(Complete())
    {
      if !Idle() { InsideIsDeclarator(list, s, i); }
      if list[i].Declarator? {
        ProcessDeclarator(list, i, s);
      } else {
        EndDefinition(list, i);
      }
    }

    /** The entries before i are done; s is the declaration that waits, if one does. */
    ghost predicate Progress(list: seq<Entry>, i: nat, s: Span, groups: seq<Span>)
      reads this
    {
      && Declared(list, groups, Complete())
      && (if Idle() then groups[|Complete()|..] == Groups(list, i)
          else Waiting(list, s) && s.first < i <= s.last && groups[|Complete()|..] == [s] + Groups(list, s.last + 1))
    }

    /** One more entry, the first of s when idle */
    method Advance(list: seq<Entry>, i: nat, ghost s: Span, ghost groups: seq<Span>)
      requires i < |list| && !list[i].Other? && Progress(list, i, s, groups)
      requires Idle() ==> s == Span(i, GroupEnd(list, i))
      modifies this
      ensures Progress(list, i + 1, s, groups)
    {
      ghost var before := Complete();
      assert groups[|before|..] == [s] + Groups(list, s.last + 1);
      ProcessEntry(list, i, s);
      if i == s.last { DeclaredMore(list, groups, before, s, Groups(list, i + 1), DeclarationOf(list, s)); }
    }

    lemma ProgressStarts(list: seq<Entry>, s: Span)
      requires Idle() && declarations == []
      ensures Progress(list, 0, s, Groups(list, 0))
    {
    }

    lemma ProgressEnds(list: seq<Entry>, s: Span, groups: seq<Span>)
      requires Progress(list, |list|, s, groups)
      ensures Idle() && |declarations| == |groups| && Declared(list, groups, declarations)
    {
    }

    /** One more entry, of whatever kind */
    method Take(list: seq<Entry>, i: nat, ghost s: Span, ghost groups: seq<Span>) returns (ghost t: Span)
      requires i < |list| && Progress(list, i, s, groups)
      modifies this
      ensures Progress(list, i + 1, t, groups)
    {
      t := s;
      if !list[i].Other? {
        if Idle() { t := Span(i, GroupEnd(list, i)); }
        Advance(list, i, t, groups);
      } else if !Idle() {
        InsideIsDeclarator(list, s, i);
      }
    }

    /** The entries in turn: the declarations made are those of the groups, in order. */
    method ProcessAll(list: seq<Entry>)
      requires Idle() && declarations == []
      modifies this
      ensures Idle()
      ensures |declarations| == |Groups(list, 0)| && Declared(list, Groups(list, 0), declarations)
    {
      var i := 0;
      ghost var groups, s := Groups(list, 0), Span(0, 0);
      ProgressStarts(list, s);
      while i < |list|
        invariant i <= |list| && Progress(list, i, s, groups)
      {
        s := Take(list, i, s, groups);
        i := i + 1;
      }
      ProgressEnds(list, s, groups);
    }

    /** The loop of a for header, which runs the entries of one declaration ahead of the list. */
    method ForHeader(list: seq<Entry>, first: nat) returns (next: nat)
      requires first < |list| && list[first].Declarator? && Idle()
      modifies this
      ensures Idle() && first < next && MaximalRun(list, first, next - 1)
      ensures declarations == old(declarations) + [DeclarationOf(list, Span(first, next - 1))]
    {
      Scan(list, first);
      ghost var s := Span(first, end.value);
      next := start.value;
      while end.Some?
        invariant first <= next <= s.last + 1
        invariant if next <= s.last then Waiting(list, s) && declarations == old(declarations)
                  else Idle() && declarations == old(declarations) + [DeclarationOf(list, s)]
        invariant pendingHead.None? && s.first == first && MaximalRun(list, first, s.last)
        decreases s.last + 1 - next
      {
        assert next > first ==> SameSpecifiers(list[first], list[next]);
        ProcessDeclarator(list, next, s);
        next := next + 1;
      }
    }
  }
}
