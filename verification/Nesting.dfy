/**
 The statement stack rebuilds exactly the nesting the source sequence list was flattened
 from, and the exact condition on compiler-generated statements under which it does.
 */
module Nesting {
  import opened Basics
  import opened Statements
  import opened StatementStack

  // ---------------------------------------------------------------- the condition

  /** No statement of the list has, or contains, a sequence entry. */
  ghost predicate Silent(ss: Stmts) {
    FlattenL(ss) == []
  }

  /** Statement s, when its entry k ends the construct on top, is over exactly when s is. */
  ghost predicate EndsWith(s: Stmt, k: nat)
    decreases Size(s)
  {
    PartsSize(s);
    match s
    case Hidden => false
    case Generated(None, ss) => ListEndsWith(ss, k)
    case Generated(Some(j), ss) => j == k && EndRight(LastSeq(ss), ss)
    case _ => s.id == k
  }

  /** The last statement of the list that shows in the sequence list is the one that k ends. */
  ghost predicate ListEndsWith(ss: Stmts, k: nat)
    decreases SizeL(ss), 0
  {
    ss.Cons? && if Silent(ss.tail) then EndsWith(ss.head, k) else ListEndsWith(ss.tail, k)
  }

  /** The ending recorded for a construct with these parts is right. */
  ghost predicate EndRight(ending: Option<nat>, ss: Stmts)
    decreases SizeL(ss), 1
  {
    match ending case None => Silent(ss) case Some(k) => ListEndsWith(ss, k)
  }

  /** Every construct in s gets the right ending. */
  ghost predicate WellEnded(s: Stmt)
    decreases Size(s)
  {
    PartsSize(s);
    && (s.If? || s.Loop? || s.For? || s.Clause? ==> EndRight(Ending(s), Parts(s)))
    && WellEndedL(Parts(s))
  }

  ghost predicate WellEndedL(ss: Stmts)
    decreases SizeL(ss)
  {
    match ss case Nil => true case Cons(s, rest) => WellEnded(s) && WellEndedL(rest)
  }

  // ---------------------------------------------------------------- what can be observed

  /** The nodes of the open constructs, innermost first. */
  datatype Path = Top | In(node: Node, outer: Path)

  function OpenPath(stack: Stack): Path {
    match stack case Empty => Top case Push(f, rest) => In(NodeOf(f), OpenPath(rest))
  }

  /** For every statement entry and end marker: the constructs that are open when it is processed. */
  ghost function Levels(es: seq<Entry>, st: State): seq<Path> {
    if es == [] then []
    else (if es[0].Init? then [] else [OpenPath(Settle(st).stack)]) + Levels(es[1..], Step(st, es[0]))
  }

  /** The constructs that enclose it in the program. */
  ghost function TrueLevels(s: Stmt, p: Path): seq<Path>
    decreases Size(s)
  {
    PartsSize(s);
    (if SeqOf(s).Some? then [p] else [])
    + TrueLevelsL(Parts(s), if s.Generated? || s.Hidden? then p else In(Of(s.id), p))
    + (if s.Block? then [In(Of(s.id), p)] else [])
  }

  ghost function TrueLevelsL(ss: Stmts, p: Path): seq<Path>
    decreases SizeL(ss)
  {
    match ss case Nil => [] case Cons(s, rest) => TrueLevels(s, p) + TrueLevelsL(rest, p)
  }

  // ---------------------------------------------------------------- running in pieces

  predicate Settled(st: State) {
    st.stack.Empty? || !st.stack.top.doPop
  }

  lemma {:induction false} SettleSettles(st: State)
    ensures Settled(Settle(st)) && Settle(Settle(st)) == Settle(st)
    decreases st.stack
  {
    if st.stack.Push? && st.stack.top.doPop {
      SettleSettles(State(st.stack.rest, st.log + PopLinks(st.stack.top)));
    }
  }

  lemma {:induction false} RunAppend(a: seq<Entry>, b: seq<Entry>, st: State)
    ensures Run(a + b, st) == Run(b, Run(a, st))
    ensures Levels(a + b, st) == Levels(a, st) + Levels(b, Run(a, st))
    decreases |a|
  {
    if a == [] {
      assert a + b == b;
    } else {
      assert (a + b)[1..] == a[1..] + b;
      RunAppend(a[1..], b, Step(st, a[0]));
    }
  }

  lemma RunOne(e: Entry, st: State)
    ensures Run([e], st) == Step(st, e)
    ensures Levels([e], st) == if e.Init? then [] else [OpenPath(Settle(st).stack)]
  {
    assert [e][1..] == [];
  }

  /** The machine starts every step by settling, so it does not matter if that has been done before. */
  lemma RunSettled(es: seq<Entry>, st: State)
    ensures es != [] ==> Run(es, st) == Run(es, Settle(st))
    ensures Settle(Run(es, st)) == Settle(Run(es, Settle(st)))
    ensures Levels(es, st) == Levels(es, Settle(st))
  {
    SettleSettles(st);
  }

  // ---------------------------------------------------------------- statements that do not show

  lemma EntryShows(s: Stmt)
    ensures SeqOf(s).Some? ==> Enter(s) in Flatten(s)
    ensures Flatten(s) == [] ==> SeqOf(s).None? && Silent(Parts(s))
  {
  }

  lemma {:induction false} SilentStmt(s: Stmt)
    requires Flatten(s) == []
    ensures Shape(s) == Leafless && Ids(s) == {}
    decreases Size(s)
  {
    PartsSize(s);
    EntryShows(s);
    SilentList(Parts(s));
  }

  lemma {:induction false} SilentList(ss: Stmts)
    requires Silent(ss)
    ensures ShapeL(ss) == Leafless && IdsL(ss) == {}
    decreases SizeL(ss)
  {
    if ss.Cons? {
      SilentStmt(ss.head);
      SilentList(ss.tail);
    }
  }

  lemma {:induction false} EndIsInside(s: Stmt, k: nat)
    requires EndsWith(s, k)
    ensures k in Ids(s) && Flatten(s) != []
    decreases Size(s)
  {
    PartsSize(s);
    if s.Generated? && s.entry.None? {
      ListEndIsInside(s.statements, k);
    } else {
      assert Enter(s) in Flatten(s);
    }
  }

  lemma {:induction false} ListEndIsInside(ss: Stmts, k: nat)
    requires ListEndsWith(ss, k)
    ensures k in IdsL(ss) && FlattenL(ss) != []
    decreases SizeL(ss)
  {
    if Silent(ss.tail) { EndIsInside(ss.head, k); } else { ListEndIsInside(ss.tail, k); }
  }

  // ---------------------------------------------------------------- one construct

  ghost function Grown(st: State, ls: seq<Link>): State {
    st.(log := st.log + ls)
  }

  /** The construct on top is complete, if closing. */
  function Closed(st: State, closing: bool): State
    requires closing ==> st.stack.Push?
  {
    if closing then st.(stack := Push(st.stack.top.(doPop := true), st.stack.rest)) else st
  }

  ghost predicate Role(s: Stmt, stack: Stack, closing: bool) {
    if closing then stack.Push? && stack.top.ending.Some? && EndsWith(s, stack.top.ending.value)
    else stack.Push? && stack.top.ending.Some? ==> stack.top.ending.value !in Ids(s)
  }

  ghost predicate RoleL(ss: Stmts, stack: Stack, closing: bool) {
    if closing then stack.Push? && stack.top.ending.Some? && ListEndsWith(ss, stack.top.ending.value)
    else stack.Push? && stack.top.ending.Some? ==> stack.top.ending.value !in IdsL(ss)
  }

  /** The statement's own entry, arriving with the construct on top closing or not. */
  lemma EntryStep(s: Stmt, st: State, closing: bool)
    requires Settled(st) && SeqOf(s).Some? && !s.Generated?
    requires closing ==> st.stack.Push?
    requires closing <==> st.stack.Push? && st.stack.top.ending == SeqOf(s)
    ensures var x := Closed(st, closing);
            var log := st.log + [Link(Parent(st.stack), Of(s.id))] + EntryLinks(s);
            Step(st, Enter(s)) == State(if Pushed(s) then Push(FrameOf(s), x.stack) else x.stack, log)
  {
  }

  ghost function ClosingLinks(s: Stmt): seq<Link> {
    if Pushed(s) then PopLinks(FrameOf(s)) else []
  }

  lemma IfLinks(p: Node, s: Stmt)
    requires s.If?
    ensures Links(p, Shape(s))
         == [Link(p, Of(s.id))] + (EntryLinks(s) + Links(Of(s.id), ShapeL(Parts(s))) + ClosingLinks(s))
  {
    var id, inner := s.id, ShapeL(Parts(s));
    var a := if LacksThen(s) then One(NullThen(id)) else Leafless;
    var b := if Pushed(s) && HasEmptyElse(s) then One(NullElse(id)) else Leafless;
    LinksGraft(Of(id), a, Graft(inner, b));
    LinksGraft(Of(id), inner, b);
    assert Links(Of(id), a) == EntryLinks(s);
    assert Links(Of(id), b) == ClosingLinks(s);
    LinksOfTree(p, Of(id), Graft(a, Graft(inner, b)));
    Regroup(EntryLinks(s), Links(Of(id), inner), ClosingLinks(s));
  }

  lemma LinksOfTree(p: Node, n: Node, kids: Forest)
    ensures Links(p, Tree(n, kids, Leafless)) == [Link(p, n)] + Links(n, kids)
  {
  }

  lemma ClauseLinks(p: Node, s: Stmt)
    requires s.Clause? && WellEnded(s)
    ensures Links(p, Shape(s))
         == [Link(p, Of(s.id))] + (EntryLinks(s) + Links(Of(s.id), ShapeL(Parts(s))) + ClosingLinks(s))
  {
    var id, inner := s.id, ShapeL(Parts(s));
    var b := if s.impliedBreak then One(BreakOf(id)) else Leafless;
    LinksGraft(Of(id), inner, b);
    if !Pushed(s) {
      SilentList(s.statements);
      assert Links(Of(id), b) == EntryLinks(s);
    } else {
      assert Links(Of(id), b) == ClosingLinks(s);
    }
  }

  lemma OtherLinks(p: Node, s: Stmt)
    requires s.Plain? || s.Loop? || s.For? || s.Block?
    ensures Links(p, Shape(s))
         == [Link(p, Of(s.id))] + (EntryLinks(s) + Links(Of(s.id), ShapeL(Parts(s))) + ClosingLinks(s))
  {
    assert Shape(s) == Tree(Of(s.id), ShapeL(Parts(s)), Leafless);
    assert EntryLinks(s) == [] && ClosingLinks(s) == [];
  }

  /** The expected links of a statement, in the order in which the machine makes them. */
  lemma ShapeLinks(p: Node, s: Stmt)
    requires WellEnded(s) && SeqOf(s).Some? && !s.Generated?
    ensures Links(p, Shape(s))
         == [Link(p, Of(s.id))] + (EntryLinks(s) + Links(Of(s.id), ShapeL(Parts(s))) + ClosingLinks(s))
  {
    if s.If? {
      IfLinks(p, s);
    } else if s.Clause? {
      ClauseLinks(p, s);
    } else {
      OtherLinks(p, s);
    }
  }

  // ---------------------------------------------------------------- the rebuilt nesting

  /**
   A whole statement: whatever is open below, its nodes are linked as its shape says, every
   entry is seen at its true level, and the construct on top is marked complete exactly when
   this is the statement that ends it.
   */
  lemma {:induction false} Replay(s: Stmt, st: State, closing: bool)
    requires WellEnded(s) && Distinct(s) && Settled(st) && Role(s, st.stack, closing)
    ensures Settle(Run(Flatten(s), st)) == Settle(Grown(Closed(st, closing), Links(Parent(st.stack), Shape(s))))
    ensures Levels(Flatten(s), st) == TrueLevels(s, OpenPath(st.stack))
    decreases Size(s), 2
  {
    PartsSize(s);
    if s.Hidden? {
    } else if s.Generated? {
      ReplayGenerated(s, st, closing);
    } else {
      ReplayNode(s, st, closing);
    }
  }

  lemma GeneratedRole(s: Stmt, stack: Stack, closing: bool)
    requires s.Generated? && Role(s, stack, closing) && Distinct(s)
    ensures s.entry.None? ==> RoleL(s.statements, stack, closing)
    ensures s.entry.Some? && !closing ==> RoleL(s.statements, stack, false)
    ensures s.entry.Some? && closing ==> stack.top.ending == s.entry && EndRight(LastSeq(s.statements), s.statements)
  {
  }

  lemma {:induction false} ReplayGenerated(s: Stmt, st: State, closing: bool)
    requires s.Generated?
    requires WellEnded(s) && Distinct(s) && Settled(st) && Role(s, st.stack, closing)
    ensures Settle(Run(Flatten(s), st)) == Settle(Grown(Closed(st, closing), Links(Parent(st.stack), Shape(s))))
    ensures Levels(Flatten(s), st) == TrueLevels(s, OpenPath(st.stack))
    decreases Size(s), 1
  {
    PartsSize(s);
    GeneratedRole(s, st.stack, closing);
    if s.entry.None? {
      assert Flatten(s) == FlattenL(s.statements);
      ReplayList(s.statements, st, closing);
    } else {
      ReplayMarked(s, st, closing);
    }
  }

  lemma MarkedRun(s: Stmt, st: State)
    requires s.Generated? && s.entry.Some? && Settled(st)
    ensures Settle(Run(Flatten(s), st)) == Settle(Run(FlattenL(s.statements), Step(st, Enter(s))))
    ensures Levels(Flatten(s), st) == [OpenPath(st.stack)] + Levels(FlattenL(s.statements), Step(st, Enter(s)))
  {
    MarkedEntries(s);
    RunAppend([Enter(s)], FlattenL(s.statements), st);
    RunOne(Enter(s), st);
  }

  lemma MarkedEntries(s: Stmt)
    requires s.Generated? && s.entry.Some?
    ensures Flatten(s) == [Enter(s)] + FlattenL(s.statements)
  {
  }

  /** The entry of a generated block only moves, or completes, the ending of the construct on top. */
  lemma MarkedStep(s: Stmt, st: State, closing: bool)
    requires s.Generated? && s.entry.Some? && Settled(st)
    requires closing ==> st.stack.Push?
    requires closing <==> st.stack.Push? && st.stack.top.ending == s.entry
    ensures var ss, st1 := s.statements, Step(st, Enter(s));
            && OpenPath(st1.stack) == OpenPath(st.stack) && Parent(st1.stack) == Parent(st.stack)
            && (!closing ==> st1 == st)
            && (closing && LastSeq(ss).None? ==> st1 == Closed(st, true))
            && (closing && LastSeq(ss).Some? ==> Settled(st1) && st1 == Handed(st, LastSeq(ss)))
  {
  }

  /** The state with another ending recorded for the construct on top. */
  function Handed(st: State, ending: Option<nat>): State
    requires st.stack.Push?
  {
    st.(stack := Push(st.stack.top.(ending := ending, doPop := false), st.stack.rest))
  }

  lemma HandedCloses(st: State, ending: Option<nat>, ls: seq<Link>)
    requires st.stack.Push?
    ensures Settle(Grown(Closed(Handed(st, ending), true), ls)) == Settle(Grown(Closed(st, true), ls))
  {
  }

  lemma {:induction false} ReplayMarked(s: Stmt, st: State, closing: bool)
    requires s.Generated? && s.entry.Some?
    requires WellEnded(s) && Distinct(s) && Settled(st) && Role(s, st.stack, closing)
    ensures Settle(Run(Flatten(s), st)) == Settle(Grown(Closed(st, closing), Links(Parent(st.stack), Shape(s))))
    ensures Levels(Flatten(s), st) == TrueLevels(s, OpenPath(st.stack))
    decreases Size(s), 0
  {
    PartsSize(s);
    GeneratedRole(s, st.stack, closing);
    MarkedRun(s, st);
    MarkedStep(s, st, closing);
    var ss := s.statements;
    if closing && LastSeq(ss).None? {
      SilentList(ss);
      SilentLevels(ss, OpenPath(st.stack));
      assert st.log + [] == st.log;
    } else {
      ReplayList(ss, Step(st, Enter(s)), closing);
      if closing { HandedCloses(st, LastSeq(ss), Links(Parent(st.stack), ShapeL(ss))); }
    }
  }

  lemma {:induction false} ReplayNode(s: Stmt, st: State, closing: bool)
    requires SeqOf(s).Some? && !s.Generated?
    requires WellEnded(s) && Distinct(s) && Settled(st) && Role(s, st.stack, closing)
    ensures Settle(Run(Flatten(s), st)) == Settle(Grown(Closed(st, closing), Links(Parent(st.stack), Shape(s))))
    ensures Levels(Flatten(s), st) == TrueLevels(s, OpenPath(st.stack))
    decreases Size(s), 1
  {
    NodeStart(s, st, closing);
    var p := OpenPath(st.stack);
    NodeLevels(s, p);
    if Pushed(s) {
      ReplayBody(s, Step(st, Enter(s)), Closed(st, closing).stack);
    } else {
      ReplayNothing(s, In(Of(s.id), p));
      var log := Step(st, Enter(s)).log;
      assert log + Links(Of(s.id), ShapeL(Parts(s))) + ClosingLinks(s) == log;
    }
  }

  ghost function EndLevel(s: Stmt, p: Path): seq<Path> {
    if s.Block? then [In(Of(s.id), p)] else []
  }

  lemma NodeLevels(s: Stmt, p: Path)
    requires SeqOf(s).Some? && !s.Generated?
    ensures TrueLevels(s, p) == [p] + (TrueLevelsL(Parts(s), In(Of(s.id), p)) + EndLevel(s, p))
  {
  }

  /** What a statement's own entry does, seen from the end of the statement. */
  lemma NodeStart(s: Stmt, st: State, closing: bool)
    requires SeqOf(s).Some? && !s.Generated?
    requires WellEnded(s) && Distinct(s) && Settled(st) && Role(s, st.stack, closing)
    ensures var body, st1 := FlattenL(Parts(s)) + EndOf(s), Step(st, Enter(s));
            && Settle(Run(Flatten(s), st)) == Settle(Run(body, st1))
            && Levels(Flatten(s), st) == [OpenPath(st.stack)] + Levels(body, st1)
    ensures var below, st1 := Closed(st, closing).stack, Step(st, Enter(s));
            && st1.stack == (if Pushed(s) then Push(FrameOf(s), below) else below)
            && st1.log + Links(Of(s.id), ShapeL(Parts(s))) + ClosingLinks(s)
               == st.log + Links(Parent(st.stack), Shape(s))
  {
    EntryStep(s, st, closing);
    ShapeLinks(Parent(st.stack), s);
    HeadRun(s, st);
    LogPieces(st.log, [Link(Parent(st.stack), Of(s.id))], EntryLinks(s), Links(Of(s.id), ShapeL(Parts(s))),
              ClosingLinks(s));
  }

  lemma LogPieces(log: seq<Link>, a: seq<Link>, b: seq<Link>, c: seq<Link>, d: seq<Link>)
    ensures log + a + b + c + d == log + (a + (b + c + d))
    ensures log + a + b + [] + [] == log + a + b
  {
  }

  lemma ReplayNothing(s: Stmt, p: Path)
    requires SeqOf(s).Some? && !s.Generated? && WellEnded(s) && !Pushed(s)
    ensures FlattenL(Parts(s)) + EndOf(s) == [] && TrueLevelsL(Parts(s), p) == []
    ensures Links(Of(s.id), ShapeL(Parts(s))) == [] && ClosingLinks(s) == []
  {
    SilentList(Parts(s));
    SilentLevels(Parts(s), p);
  }

  ghost function InitOf(s: Stmt): seq<Entry> {
    if s.For? && s.init.Some? then [Init(s.init.value)] else []
  }

  ghost function EndOf(s: Stmt): seq<Entry> {
    if s.Block? then [End(s.id)] else []
  }

  /** The entry of a statement and the initialiser behind it act like the entry alone. */
  lemma HeadRun(s: Stmt, st: State)
    requires Settled(st) && SeqOf(s).Some? && !s.Generated?
    ensures var body := FlattenL(Parts(s)) + EndOf(s);
            var st1 := Step(st, Enter(s));
            && Settle(Run(Flatten(s), st)) == Settle(Run(body, st1))
            && Levels(Flatten(s), st) == [OpenPath(st.stack)] + Levels(body, st1)
  {
    var first := [Enter(s)] + InitOf(s);
    var body := FlattenL(Parts(s)) + EndOf(s);
    var st1 := Step(st, Enter(s));
    assert Flatten(s) == first + body;
    RunAppend(first, body, st);
    RunAppend([Enter(s)], InitOf(s), st);
    RunOne(Enter(s), st);
    if InitOf(s) != [] {
      RunOne(InitOf(s)[0], st1);
      SettleSettles(st1);
    }
    assert Settle(Run(first, st)) == Settle(st1);
    RunSettled(body, Run(first, st));
    RunSettled(body, st1);
  }

  /** From a construct's own entry to its end: the frame collects the parts and is popped. */
  lemma {:induction false} ReplayBody(s: Stmt, st1: State, below: Stack)
    requires WellEnded(s) && Distinct(s) && Pushed(s)
    requires st1.stack == Push(FrameOf(s), below)
    ensures Settle(Run(FlattenL(Parts(s)) + EndOf(s), st1))
         == Settle(State(below, st1.log + Links(Of(s.id), ShapeL(Parts(s))) + PopLinks(FrameOf(s))))
    ensures Levels(FlattenL(Parts(s)) + EndOf(s), st1)
         == TrueLevelsL(Parts(s), In(Of(s.id), OpenPath(below))) + EndLevel(s, OpenPath(below))
    decreases Size(s), 0
  {
    PartsSize(s);
    var parts := Parts(s);
    RunAppend(FlattenL(parts), EndOf(s), st1);
    var log := st1.log + Links(Of(s.id), ShapeL(parts));
    if FrameOf(s).doPop {
      SilentList(parts);
      SilentLevels(parts, In(Of(s.id), OpenPath(below)));
      assert log == st1.log;
    } else if s.Block? {
      ReplayList(parts, st1, false);
      RunOne(End(s.id), Run(FlattenL(parts), st1));
      assert log + PopLinks(FrameOf(s)) == log;
    } else {
      ReplayList(parts, st1, true);
    }
  }

  lemma {:induction false} SilentLevels(ss: Stmts, p: Path)
    requires Silent(ss)
    ensures TrueLevelsL(ss, p) == []
    decreases SizeL(ss)
  {
    if ss.Cons? {
      PartsSize(ss.head);
      EntryShows(ss.head);
      SilentLevels(Parts(ss.head), p);
      SilentLevels(ss.tail, p);
    }
  }

  lemma {:induction false} ReplayList(ss: Stmts, st: State, closing: bool)
    requires WellEndedL(ss) && DistinctL(ss) && Settled(st) && RoleL(ss, st.stack, closing)
    ensures Settle(Run(FlattenL(ss), st)) == Settle(Grown(Closed(st, closing), Links(Parent(st.stack), ShapeL(ss))))
    ensures Levels(FlattenL(ss), st) == TrueLevelsL(ss, OpenPath(st.stack))
    decreases SizeL(ss), 0
  {
    if ss.Cons? {
      var s, rest := ss.head, ss.tail;
      var here := closing && Silent(rest);
      if closing && !here { ListEndIsInside(rest, st.stack.top.ending.value); }
      if closing && here { EndIsInside(s, st.stack.top.ending.value); }
      Replay(s, st, here);
      var first := Grown(Closed(st, here), Links(Parent(st.stack), Shape(s)));
      RunAppend(Flatten(s), FlattenL(rest), st);
      RunSettled(FlattenL(rest), Run(Flatten(s), st));
      LinksGraft(Parent(st.stack), Shape(s), ShapeL(rest));
      var all := Links(Parent(st.stack), ShapeL(ss));
      if Silent(rest) {
        SilentList(rest);
        SilentLevels(rest, OpenPath(st.stack));
        assert all == Links(Parent(st.stack), Shape(s));
      } else {
        assert first == Grown(st, Links(Parent(st.stack), Shape(s)));
        ReplayList(rest, first, closing);
        assert st.log + Links(Parent(st.stack), Shape(s)) + Links(Parent(st.stack), ShapeL(rest)) == st.log + all;
      }
    }
  }

  /**
   Run from an empty stack, the machine rebuilds the nesting of any well-ended program. Constructs
   that end with the last entry are popped, with what they are owed, when another entry comes: that
   is the outer Settle.
   */
  lemma {:induction false} Rebuilds(prog: Stmts)
    requires WellEndedL(prog) && DistinctL(prog)
    ensures Settle(Run(FlattenL(prog), State(Empty, []))) == State(Empty, Links(Root, ShapeL(prog)))
    ensures Levels(FlattenL(prog), State(Empty, [])) == TrueLevelsL(prog, Top)
  {
    ReplayList(prog, State(Empty, []), false);
    assert [] + Links(Root, ShapeL(prog)) == Links(Root, ShapeL(prog));
  }

  // ---------------------------------------------------------------- programs that end in a block

  /** The last statement of the list is a real block, as the body of every function is. */
  predicate EndsInBlock(ss: Stmts) {
    ss.Cons? && Last(ss).Block?
  }

  lemma {:induction false} BlockShows(ss: Stmts)
    requires EndsInBlock(ss)
    ensures FlattenL(ss) != []
    decreases ss
  {
    if ss.tail.Cons? { BlockShows(ss.tail); }
  }

  /** The end marker of a block leaves the stack as it was before the block. */
  lemma BlockLeavesStack(s: Stmt, st: State)
    requires s.Block? && WellEnded(s) && Distinct(s) && Settled(st) && Role(s, st.stack, false)
    ensures Run(Flatten(s), st).stack == st.stack
  {
    PartsSize(s);
    var parts, st1 := FlattenL(Parts(s)), Step(st, Enter(s));
    assert Flatten(s) == ([Enter(s)] + parts) + [End(s.id)];
    EntryStep(s, st, false);
    RunAppend([Enter(s)] + parts, [End(s.id)], st);
    RunAppend([Enter(s)], parts, st);
    RunOne(Enter(s), st);
    ReplayList(Parts(s), st1, false);
    RunOne(End(s.id), Run(parts, st1));
  }

  lemma {:induction false} BlockListLeavesStack(ss: Stmts, st: State)
    requires EndsInBlock(ss) && WellEndedL(ss) && DistinctL(ss) && Settled(st) && RoleL(ss, st.stack, false)
    ensures Run(FlattenL(ss), st).stack == st.stack
    decreases ss
  {
    if ss.tail.Nil? {
      BlockLeavesStack(ss.head, st);
      assert FlattenL(ss) == Flatten(ss.head);
    } else {
      var s, rest := ss.head, ss.tail;
      var first := Grown(st, Links(Parent(st.stack), Shape(s)));
      Replay(s, st, false);
      RunAppend(Flatten(s), FlattenL(rest), st);
      BlockShows(rest);
      RunSettled(FlattenL(rest), Run(Flatten(s), st));
      BlockListLeavesStack(rest, first);
    }
  }

  /** Such a program is rebuilt by its own entries alone: nothing waits for an entry behind it. */
  lemma {:induction false} RebuildsBlocks(prog: Stmts)
    requires WellEndedL(prog) && DistinctL(prog) && EndsInBlock(prog)
    ensures Run(FlattenL(prog), State(Empty, [])) == State(Empty, Links(Root, ShapeL(prog)))
  {
    Rebuilds(prog);
    BlockListLeavesStack(prog, State(Empty, []));
  }

  // ---------------------------------------------------------------- the condition is needed

  ghost function Visible(es: seq<Entry>): nat {
    if es == [] then 0 else (if es[0].Init? then 0 else 1) + Visible(es[1..])
  }

  lemma {:induction false} VisibleAppend(a: seq<Entry>, b: seq<Entry>)
    ensures Visible(a + b) == Visible(a) + Visible(b)
  {
    if a == [] {
      assert a + b == b;
    } else {
      assert (a + b)[1..] == a[1..] + b;
      VisibleAppend(a[1..], b);
    }
  }

  lemma {:induction false} LevelsLength(es: seq<Entry>, st: State)
    ensures |Levels(es, st)| == Visible(es)
    decreases |es|
  {
    if es != [] {
      LevelsLength(es[1..], Step(st, es[0]));
    }
  }

  lemma {:induction false} TrueLevelsLength(s: Stmt, p: Path)
    ensures |TrueLevels(s, p)| == Visible(Flatten(s))
    decreases Size(s)
  {
    PartsSize(s);
    var a := if SeqOf(s).Some? then [Enter(s)] else [];
    assert Flatten(s) == (a + InitOf(s)) + (FlattenL(Parts(s)) + EndOf(s));
    VisibleAppend(a, InitOf(s));
    VisibleAppend(a + InitOf(s), FlattenL(Parts(s)) + EndOf(s));
    VisibleAppend(FlattenL(Parts(s)), EndOf(s));
    TrueLevelsLengthL(Parts(s), if s.Generated? || s.Hidden? then p else In(Of(s.id), p));
  }

  lemma {:induction false} TrueLevelsLengthL(ss: Stmts, p: Path)
    ensures |TrueLevelsL(ss, p)| == Visible(FlattenL(ss))
    decreases SizeL(ss)
  {
    if ss.Cons? {
      VisibleAppend(Flatten(ss.head), FlattenL(ss.tail));
      TrueLevelsLength(ss.head, p);
      TrueLevelsLengthL(ss.tail, p);
    }
  }

  /** The first entry a list shows is a statement, seen at the level of the list. */
  lemma {:induction false} FirstEntry(s: Stmt, p: Path)
    requires Flatten(s) != []
    ensures Flatten(s)[0].Enter? && TrueLevels(s, p) != [] && TrueLevels(s, p)[0] == p
    decreases Size(s)
  {
    PartsSize(s);
    if SeqOf(s).None? {
      FirstEntryL(Parts(s), p);
    }
  }

  lemma {:induction false} FirstEntryL(ss: Stmts, p: Path)
    requires !Silent(ss)
    ensures FlattenL(ss)[0].Enter? && TrueLevelsL(ss, p) != [] && TrueLevelsL(ss, p)[0] == p
    decreases SizeL(ss)
  {
    if Flatten(ss.head) != [] {
      FirstEntry(ss.head, p);
    } else {
      SilentLevels(Cons(ss.head, Nil), p);
      assert FlattenL(Cons(ss.head, Nil)) == Flatten(ss.head) + [];
      assert TrueLevelsL(Cons(ss.head, Nil), p) == TrueLevels(ss.head, p) + [];
      FirstEntryL(ss.tail, p);
    }
  }

  function Depth(p: Path): nat {
    match p case Top => 0 case In(_, q) => 1 + Depth(q)
  }

  lemma {:induction false} SettleShrinks(st: State)
    ensures Depth(OpenPath(Settle(st).stack)) <= Depth(OpenPath(st.stack))
    ensures st.stack.Push? && st.stack.top.doPop ==> Depth(OpenPath(Settle(st).stack)) < Depth(OpenPath(st.stack))
    decreases st.stack
  {
    if st.stack.Push? && st.stack.top.doPop {
      SettleShrinks(State(st.stack.rest, st.log + PopLinks(st.stack.top)));
    }
  }

  lemma FirstLevel(es: seq<Entry>, st: State)
    requires es != [] && es[0].Enter?
    ensures Levels(es, st) != [] && Levels(es, st)[0] == OpenPath(Settle(st).stack)
  {
  }

  lemma SplitEqual(a: seq<Path>, b: seq<Path>, c: seq<Path>, d: seq<Path>)
    requires a + b == c + d && |a| == |c|
    ensures a == c && b == d
  {
    assert a == (a + b)[..|a|] && c == (c + d)[..|c|];
    assert b == (a + b)[|a|..] && d == (c + d)[|c|..];
  }

  /** A list that shows cannot be seen right once fewer constructs are open than enclose it. */
  lemma LostLevel(ss: Stmts, st: State, p: Path)
    requires Depth(OpenPath(Settle(st).stack)) < Depth(p)
    requires TrueLevelsL(ss, p) <= Levels(FlattenL(ss), st)
    ensures Silent(ss)
  {
    if !Silent(ss) {
      FirstEntryL(ss, p);
      FirstLevel(FlattenL(ss), st);
    }
  }

  lemma {:induction false} SilentIsWellEnded(ss: Stmts)
    requires Silent(ss)
    ensures WellEndedL(ss)
    decreases SizeL(ss)
  {
    if ss.Cons? {
      PartsSize(ss.head);
      EntryShows(ss.head);
      SilentIsWellEnded(Parts(ss.head));
      SilentIsWellEnded(ss.tail);
    }
  }

  /** k is the entry of a statement that is spliced directly into the list. */
  ghost predicate Direct(s: Stmt, k: nat)
    decreases Size(s)
  {
    PartsSize(s);
    SeqOf(s) == Some(k) || (s.Generated? && s.entry.None? && DirectL(s.statements, k))
  }

  ghost predicate DirectL(ss: Stmts, k: nat)
    decreases SizeL(ss)
  {
    ss.Cons? && (Direct(ss.head, k) || DirectL(ss.tail, k))
  }

  lemma {:induction false} DirectIsInside(s: Stmt, k: nat)
    requires Direct(s, k)
    ensures k in Ids(s)
    decreases Size(s)
  {
    PartsSize(s);
    if SeqOf(s).None? { DirectIsInsideL(s.statements, k); }
  }

  lemma {:induction false} DirectIsInsideL(ss: Stmts, k: nat)
    requires DirectL(ss, k)
    ensures k in IdsL(ss) && !Silent(ss)
    decreases SizeL(ss)
  {
    if Direct(ss.head, k) { DirectIsInside(ss.head, k); } else { DirectIsInsideL(ss.tail, k); }
    if Silent(ss) { SilentList(ss); }
  }

  lemma {:induction false} LastSeqIsDirect(ss: Stmts)
    ensures LastSeq(ss).Some? ==> DirectL(ss, LastSeq(ss).value)
  {
    if ss.Cons? { LastSeqIsDirect(ss.tail); }
  }

  lemma {:induction false} LastIsDirect(ss: Stmts, k: nat)
    requires ss.Cons? && Direct(Last(ss), k)
    ensures DirectL(ss, k)
  {
    if ss.tail.Cons? { LastIsDirect(ss.tail, k); }
  }

  lemma {:induction false} EndingIsDirect(s: Stmt)
    ensures EndingOf(s).Some? ==> Direct(s, EndingOf(s).value)
    decreases s
  {
    if SeqOf(s).None? && s.Generated? && s.statements.Cons? {
      var inner := Last(s.statements);
      EndingIsDirect(inner);
      LastSeqIsDirect(s.statements);
      if SeqOf(inner).None? && EndingOf(inner).Some? { LastIsDirect(s.statements, EndingOf(inner).value); }
    }
  }

  lemma PushedEndingIsDirect(s: Stmt)
    ensures Ending(s).Some? ==> DirectL(Parts(s), Ending(s).value)
  {
    match s {
      case If(_, t, e, _) => if e.Some? { EndingIsDirect(e.value); } else if t.Some? { EndingIsDirect(t.value); }
      case Loop(_, _, b) => if b.Some? { EndingIsDirect(b.value); }
      case For(_, _, b) => if b.Some? { EndingIsDirect(b.value); }
      case Clause(_, ss, _) => LastSeqIsDirect(ss);
      case _ =>
    }
  }

  ghost predicate Candidate(s: Stmt, stack: Stack, closing: bool) {
    if closing then stack.Push? && stack.top.ending.Some? && Direct(s, stack.top.ending.value)
    else stack.Push? && stack.top.ending.Some? ==> stack.top.ending.value !in Ids(s)
  }

  ghost predicate CandidateL(ss: Stmts, stack: Stack, closing: bool) {
    if closing then stack.Push? && stack.top.ending.Some? && DirectL(ss, stack.top.ending.value)
    else stack.Push? && stack.top.ending.Some? ==> stack.top.ending.value !in IdsL(ss)
  }

  /** If every entry of s is seen at its true level, then s is well ended, and ends what it is to end. */
  lemma {:induction false} LevelsTell(s: Stmt, st: State, closing: bool)
    requires Distinct(s) && Settled(st) && Candidate(s, st.stack, closing)
    requires Levels(Flatten(s), st) == TrueLevels(s, OpenPath(st.stack))
    ensures WellEnded(s) && Role(s, st.stack, closing)
    decreases Size(s), 2
  {
    PartsSize(s);
    if s.Hidden? {
    } else if !s.Generated? {
      LevelsTellNode(s, st, closing);
    } else if s.entry.None? {
      LevelsTellUnmarked(s, st, closing);
    } else {
      LevelsTellMarked(s, st, closing);
    }
  }

  lemma {:induction false} LevelsTellUnmarked(s: Stmt, st: State, closing: bool)
    requires s.Generated? && s.entry.None?
    requires Distinct(s) && Settled(st) && Candidate(s, st.stack, closing)
    requires Levels(Flatten(s), st) == TrueLevels(s, OpenPath(st.stack))
    ensures WellEnded(s) && Role(s, st.stack, closing)
    decreases Size(s), 0
  {
    PartsSize(s);
    assert Flatten(s) == FlattenL(s.statements);
    LevelsTellList(s.statements, st, closing);
  }

  lemma {:induction false} LevelsTellMarked(s: Stmt, st: State, closing: bool)
    requires s.Generated? && s.entry.Some?
    requires Distinct(s) && Settled(st) && Candidate(s, st.stack, closing)
    requires Levels(Flatten(s), st) == TrueLevels(s, OpenPath(st.stack))
    ensures WellEnded(s) && Role(s, st.stack, closing)
    decreases Size(s), 0
  {
    PartsSize(s);
    var ss, p, st1 := s.statements, OpenPath(st.stack), Step(st, Enter(s));
    MarkedRun(s, st);
    MarkedStep(s, st, closing);
    SplitEqual([p], Levels(FlattenL(ss), st1), [p], TrueLevelsL(ss, p) + []);
    if closing && LastSeq(ss).None? {
      SettleShrinks(st1);
      LostLevel(ss, st1, p);
      SilentIsWellEnded(ss);
    } else {
      LastSeqIsDirect(ss);
      LevelsTellList(ss, st1, closing);
    }
  }

  /** Seeing a statement at its true level means seeing its parts at theirs. */
  lemma {:induction false} PartsLevels(s: Stmt, st: State)
    requires SeqOf(s).Some? && !s.Generated? && Settled(st)
    requires Levels(Flatten(s), st) == TrueLevels(s, OpenPath(st.stack))
    ensures Levels(FlattenL(Parts(s)), Step(st, Enter(s))) == TrueLevelsL(Parts(s), In(Of(s.id), OpenPath(st.stack)))
  {
    var parts, p, st1 := Parts(s), OpenPath(st.stack), Step(st, Enter(s));
    var q := In(Of(s.id), p);
    HeadRun(s, st);
    NodeLevels(s, p);
    RunAppend(FlattenL(parts), EndOf(s), st1);
    SplitEqual([p], Levels(FlattenL(parts) + EndOf(s), st1), [p], TrueLevelsL(parts, q) + EndLevel(s, p));
    LevelsLength(FlattenL(parts), st1);
    TrueLevelsLengthL(parts, q);
    SplitEqual(Levels(FlattenL(parts), st1), Levels(EndOf(s), Run(FlattenL(parts), st1)),
               TrueLevelsL(parts, q), EndLevel(s, p));
  }

  lemma {:induction false} UnpushedIsSilent(s: Stmt, st: State, closing: bool)
    requires SeqOf(s).Some? && !s.Generated? && Settled(st) && (!Pushed(s) || FrameOf(s).doPop)
    requires Candidate(s, st.stack, closing) && Distinct(s)
    requires Levels(Flatten(s), st) == TrueLevels(s, OpenPath(st.stack))
    ensures Silent(Parts(s))
  {
    EntryStep(s, st, closing);
    PartsLevels(s, st);
    SettleShrinks(Step(st, Enter(s)));
    LostLevel(Parts(s), Step(st, Enter(s)), In(Of(s.id), OpenPath(st.stack)));
  }

  lemma {:induction false} LevelsTellNode(s: Stmt, st: State, closing: bool)
    requires SeqOf(s).Some? && !s.Generated?
    requires Distinct(s) && Settled(st) && Candidate(s, st.stack, closing)
    requires Levels(Flatten(s), st) == TrueLevels(s, OpenPath(st.stack))
    ensures WellEnded(s) && Role(s, st.stack, closing)
    decreases Size(s), 1
  {
    LevelsTellParts(s, st, closing);
  }

  lemma {:induction false} LevelsTellParts(s: Stmt, st: State, closing: bool)
    requires SeqOf(s).Some? && !s.Generated?
    requires Distinct(s) && Settled(st) && Candidate(s, st.stack, closing)
    requires Levels(Flatten(s), st) == TrueLevels(s, OpenPath(st.stack))
    ensures WellEndedL(Parts(s)) && (s.Block? || EndRight(Ending(s), Parts(s)))
    decreases Size(s), 0
  {
    PartsSize(s);
    var parts, st1 := Parts(s), Step(st, Enter(s));
    EntryStep(s, st, closing);
    PartsLevels(s, st);
    if s.Block? {
      LevelsTellList(parts, st1, false);
    } else if !Pushed(s) || FrameOf(s).doPop {
      UnpushedIsSilent(s, st, closing);
      SilentIsWellEnded(parts);
    } else {
      PushedEndingIsDirect(s);
      LevelsTellList(parts, st1, true);
    }
  }

  lemma {:induction false} LevelsTellList(ss: Stmts, st: State, closing: bool)
    requires DistinctL(ss) && Settled(st) && CandidateL(ss, st.stack, closing)
    requires Levels(FlattenL(ss), st) == TrueLevelsL(ss, OpenPath(st.stack))
    ensures WellEndedL(ss) && RoleL(ss, st.stack, closing)
    decreases SizeL(ss), 0
  {
    if ss.Cons? {
      var s, rest, p := ss.head, ss.tail, OpenPath(st.stack);
      var here := closing && Direct(s, st.stack.top.ending.value);
      var st1 := Run(Flatten(s), st);
      RunAppend(Flatten(s), FlattenL(rest), st);
      LevelsLength(Flatten(s), st);
      TrueLevelsLength(s, p);
      SplitEqual(Levels(Flatten(s), st), Levels(FlattenL(rest), st1), TrueLevels(s, p), TrueLevelsL(rest, p));
      if closing && !here { DirectIsInsideL(rest, st.stack.top.ending.value); }
      LevelsTell(s, st, here);
      Replay(s, st, here);
      RunSettled(FlattenL(rest), st1);
      var links := Links(Parent(st.stack), Shape(s));
      if here {
        SettleShrinks(Grown(Closed(st, true), links));
        LostLevel(rest, st1, p);
        SilentIsWellEnded(rest);
      } else {
        LevelsTellList(rest, Grown(st, links), closing);
        if closing { ListEndIsInside(rest, st.stack.top.ending.value); }
      }
    }
  }

  /**
   Every entry is processed at its true level exactly when every construct is given the right
   ending: the statement that shows last in it has a sequence entry or is a generated block the
   code looks through.
   */
  lemma {:induction false} LevelsRightIffWellEnded(prog: Stmts)
    requires DistinctL(prog)
    ensures Levels(FlattenL(prog), State(Empty, [])) == TrueLevelsL(prog, Top) <==> WellEndedL(prog)
  {
    if WellEndedL(prog) {
      Rebuilds(prog);
    }
    if Levels(FlattenL(prog), State(Empty, [])) == TrueLevelsL(prog, Top) {
      LevelsTellList(prog, State(Empty, []), false);
    }
  }

  /** "if (x) f(); else ;" whose else is an entry-less empty block. */
  const EMPTY_ELSE := If(1, Some(Plain(2)), Some(Generated(None, Nil)), false)

  lemma EmptyElseEntries()
    ensures Flatten(EMPTY_ELSE) == [Enter(EMPTY_ELSE)] + [Enter(Plain(2))]
    ensures !WellEnded(EMPTY_ELSE) && Distinct(EMPTY_ELSE)
  {
    var els := Cons(Generated(None, Nil), Nil);
    assert Flatten(Generated(None, Nil)) == [] && FlattenL(els) == [];
    assert Flatten(Plain(2)) == [Enter(Plain(2))];
    assert FlattenL(Cons(Plain(2), els)) == [Enter(Plain(2))];
    assert Parts(EMPTY_ELSE) == Cons(Plain(2), els);
    assert IdsL(els) == {} && IdsL(Cons(Plain(2), els)) == {2};
    assert DistinctL(els);
  }

  /** The if statement is popped, with its null operand, before its then part is seen. */
  lemma EmptyElseStep()
    ensures var st := Step(State(Empty, []), Enter(EMPTY_ELSE));
      st == State(Push(Frame(EMPTY_ELSE, None, true), Empty), [Link(Root, Of(1))])
      && Settle(st) == State(Empty, [Link(Root, Of(1)), Link(Of(1), NullElse(1))])
  {
    var st := State(Push(Frame(EMPTY_ELSE, None, true), Empty), [Link(Root, Of(1))]);
    assert Ending(EMPTY_ELSE) == None && EntryLinks(EMPTY_ELSE) == [];
    assert Chain(State(Empty, []), Of(1)).log == [Link(Root, Of(1))];
    assert Settle(st) == State(Empty, st.log + PopLinks(st.stack.top));
  }

  /** Its then part is linked outside the if statement. */
  lemma EmptyElseLosesThen()
    ensures !WellEnded(EMPTY_ELSE) && Distinct(EMPTY_ELSE)
    ensures Run(Flatten(EMPTY_ELSE), State(Empty, [])).log
         == [Link(Root, Of(1)), Link(Of(1), NullElse(1)), Link(Root, Of(2))]
  {
    var st := State(Empty, []);
    EmptyElseEntries();
    EmptyElseStep();
    RunAppend([Enter(EMPTY_ELSE)], [Enter(Plain(2))], st);
    RunOne(Enter(EMPTY_ELSE), st);
    RunOne(Enter(Plain(2)), Step(st, Enter(EMPTY_ELSE)));
  }
}
