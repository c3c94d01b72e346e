/**
 What the pointers show once a whole source sequence list has been processed: walking
 first_child and next_sibling from the root meets exactly the forest the list was made from.
 */
module RebuiltTree {
  import opened Basics
  import opened Statements
  import opened StatementStack
  import opened Nesting
  import opened AstBuilder

  function Roots(f: Forest): seq<Node> {
    match f case Leafless => [] case Tree(n, _, next) => [n] + Roots(next)
  }

  ghost function Nodes(f: Forest): set<Node> {
    match f case Leafless => {} case Tree(n, kids, next) => {n} + Nodes(kids) + Nodes(next)
  }

  ghost predicate NoRepeats(f: Forest) {
    match f
    case Leafless => true
    case Tree(n, kids, next) =>
      n !in Nodes(kids) && n !in Nodes(next) && Nodes(kids) !! Nodes(next) && NoRepeats(kids) && NoRepeats(next)
  }

  /** The pointers below p run through its operands and then through the forest f, at every depth. */
  ghost predicate Drawn(first: map<Node, Node>, next: map<Node, Node>, h: map<nat, nat>, p: Node, f: Forest) {
    Threaded(first, next, p, Headers(h, p) + Roots(f)) && DrawnBelow(first, next, h, f)
  }

  ghost predicate DrawnBelow(first: map<Node, Node>, next: map<Node, Node>, h: map<nat, nat>, f: Forest) {
    match f
    case Leafless => true
    case Tree(n, kids, rest) =>
      && Threaded(first, next, n, Headers(h, n) + Roots(kids))
      && DrawnBelow(first, next, h, kids)
      && DrawnBelow(first, next, h, rest)
  }

  // ---------------------------------------------------------------- children of a link list

  lemma {:induction false} ChildrenConcat(a: seq<Link>, b: seq<Link>, p: Node)
    ensures Children(a + b, p) == Children(a, p) + Children(b, p)
  {
    if b == [] {
      assert a + b == a;
    } else {
      var init, last := b[..|b| - 1], b[|b| - 1];
      assert a + b == (a + init) + [last] && b == init + [last];
      ChildrenAppend(a + init, last, p);
      ChildrenAppend(init, last, p);
      ChildrenConcat(a, init, p);
    }
  }

  lemma ChildrenOfTree(p: Node, f: Forest, q: Node)
    requires f.Tree?
    ensures Children(Links(p, f), q)
         == (if p == q then [f.node] else []) + Children(Links(f.node, f.kids), q) + Children(Links(p, f.next), q)
  {
    var a, b, c := [Link(p, f.node)], Links(f.node, f.kids), Links(p, f.next);
    ChildrenConcat(a + b, c, q);
    ChildrenConcat(a, b, q);
    assert [] + a == a;
    ChildrenAppend([], Link(p, f.node), q);
  }

  lemma {:induction false} ChildrenOutside(p: Node, f: Forest, q: Node)
    requires q !in Nodes(f)
    ensures Children(Links(p, f), q) == if p == q then Roots(f) else []
    decreases f
  {
    if f.Tree? {
      ChildrenOfTree(p, f, q);
      ChildrenOutside(f.node, f.kids, q);
      ChildrenOutside(p, f.next, q);
      var here: seq<Node> := if p == q then [f.node] else [];
      assert here + [] == here;
    }
  }

  /** The log has, for the nodes of f, the links of f and no others. */
  ghost predicate Agrees(log: seq<Link>, p: Node, f: Forest) {
    forall q :: q in Nodes(f) ==> Children(log, q) == Children(Links(p, f), q)
  }

  lemma AgreesInside(log: seq<Link>, p: Node, f: Forest)
    requires f.Tree? && NoRepeats(f) && p !in Nodes(f) && Agrees(log, p, f)
    ensures Children(log, f.node) == Roots(f.kids)
    ensures Agrees(log, f.node, f.kids) && Agrees(log, p, f.next)
  {
    ChildrenOfTree(p, f, f.node);
    ChildrenOutside(f.node, f.kids, f.node);
    ChildrenOutside(p, f.next, f.node);
    forall q | q in Nodes(f.kids) ensures Children(log, q) == Children(Links(f.node, f.kids), q) {
      ChildrenOfTree(p, f, q);
      ChildrenOutside(p, f.next, q);
    }
    forall q | q in Nodes(f.next) ensures Children(log, q) == Children(Links(p, f.next), q) {
      ChildrenOfTree(p, f, q);
      ChildrenOutside(f.node, f.kids, q);
    }
  }

  /** A log that agrees with the links of f draws f. */
  lemma {:induction false} LogDraws(first: map<Node, Node>, next: map<Node, Node>, h: map<nat, nat>,
                                    log: seq<Link>, p: Node, f: Forest)
    requires Represents(first, next, h, log) && NoRepeats(f) && p !in Nodes(f) && Agrees(log, p, f)
    ensures DrawnBelow(first, next, h, f)
    decreases f
  {
    if f.Tree? {
      AgreesInside(log, p, f);
      assert Threaded(first, next, f.node, Kids(h, log, f.node));
      LogDraws(first, next, h, log, f.node, f.kids);
      LogDraws(first, next, h, log, p, f.next);
    }
  }

  // ---------------------------------------------------------------- the shape repeats no node

  ghost predicate Owned(f: Forest, ids: set<nat>) {
    forall n :: n in Nodes(f) ==> !n.Root? && !n.Header? && n.id in ids
  }

  lemma {:induction false} GraftNodes(a: Forest, b: Forest)
    ensures Nodes(Graft(a, b)) == Nodes(a) + Nodes(b)
    ensures NoRepeats(a) && NoRepeats(b) && Nodes(a) !! Nodes(b) ==> NoRepeats(Graft(a, b))
  {
    if a.Tree? { GraftNodes(a.next, b); }
  }

  /** A statement's node over a clean list of children, with its own extra nodes around it. */
  lemma TreeIsClean(id: nat, a: Forest, inner: Forest, b: Forest, ids: set<nat>)
    requires NoRepeats(inner) && Owned(inner, ids) && id !in ids
    requires a == Leafless || a == One(NullThen(id))
    requires b == Leafless || b == One(NullElse(id)) || b == One(BreakOf(id))
    ensures var t := Tree(Of(id), Graft(a, Graft(inner, b)), Leafless); NoRepeats(t) && Owned(t, {id} + ids)
  {
    var kids := Graft(a, Graft(inner, b));
    GraftNodes(inner, b);
    GraftNodes(a, Graft(inner, b));
    OneNode(NullThen(id));
    OneNode(NullElse(id));
    OneNode(BreakOf(id));
    assert NoRepeats(a) && NoRepeats(b) && NoRepeats(Graft(inner, b)) && NoRepeats(kids);
    assert Owned(kids, {id} + ids) && Of(id) !in Nodes(kids);
    assert Nodes(Leafless) == {};
  }

  lemma OneNode(n: Node)
    ensures Nodes(One(n)) == {n} && NoRepeats(One(n))
  {
    assert Nodes(Leafless) == {};
  }

  lemma {:induction false} GraftNothing(f: Forest)
    ensures Graft(Leafless, f) == f && Graft(f, Leafless) == f
  {
    if f.Tree? { GraftNothing(f.next); }
  }

  lemma {:induction false} ShapeIsClean(s: Stmt)
    requires Distinct(s)
    ensures NoRepeats(Shape(s)) && Owned(Shape(s), Ids(s))
    decreases Size(s)
  {
    PartsSize(s);
    var inner, ids := ShapeL(Parts(s)), IdsL(Parts(s));
    ShapeIsCleanL(Parts(s));
    GraftNothing(inner);
    match s {
      case Hidden =>
      case Generated(_, _) =>
      case If(id, _, _, _) =>
        TreeIsClean(id, if LacksThen(s) then One(NullThen(id)) else Leafless, inner,
                    if Pushed(s) && HasEmptyElse(s) then One(NullElse(id)) else Leafless, ids);
      case Clause(id, _, br) =>
        GraftNothing(Graft(inner, if br then One(BreakOf(id)) else Leafless));
        TreeIsClean(id, Leafless, inner, if br then One(BreakOf(id)) else Leafless, ids);
      case _ =>
        TreeIsClean(s.id, Leafless, inner, Leafless, ids);
    }
  }

  lemma {:induction false} ShapeIsCleanL(ss: Stmts)
    requires DistinctL(ss)
    ensures NoRepeats(ShapeL(ss)) && Owned(ShapeL(ss), IdsL(ss))
    decreases SizeL(ss)
  {
    if ss.Cons? {
      ShapeIsClean(ss.head);
      ShapeIsCleanL(ss.tail);
      GraftNodes(Shape(ss.head), ShapeL(ss.tail));
    }
  }

  lemma {:induction false} EntriesInside(s: Stmt)
    requires Distinct(s)
    ensures EntriesDistinct(Flatten(s))
    ensures forall e :: e in Flatten(s) && e.Enter? ==> SeqOf(e.s).Some? && SeqOf(e.s).value in Ids(s)
    decreases Size(s)
  {
    PartsSize(s);
    EntriesInsideL(Parts(s));
    var a: seq<Entry> := if SeqOf(s).Some? then [Enter(s)] else [];
    var b: seq<Entry> := if s.For? && s.init.Some? then [Init(s.init.value)] else [];
    var c: seq<Entry> := FlattenL(Parts(s));
    var d: seq<Entry> := if s.Block? then [End(s.id)] else [];
    assert Flatten(s) == a + b + c + d;
    EntriesJoin(a, b);
    EntriesJoin(a + b, c);
    EntriesJoin(a + b + c, d);
  }

  lemma EntriesJoin(a: seq<Entry>, b: seq<Entry>)
    requires EntriesDistinct(a) && EntriesDistinct(b)
    requires forall e, f :: e in a && f in b && e.Enter? && f.Enter? ==> SeqOf(e.s) != SeqOf(f.s)
    ensures EntriesDistinct(a + b)
  {
    forall i, j | 0 <= i < j < |a + b| && (a + b)[i].Enter? && (a + b)[j].Enter?
      ensures SeqOf((a + b)[i].s) != SeqOf((a + b)[j].s)
    {
      if i < |a| <= j { assert (a + b)[i] in a && (a + b)[j] in b; }
    }
  }

  lemma {:induction false} EntriesInsideL(ss: Stmts)
    requires DistinctL(ss)
    ensures EntriesDistinct(FlattenL(ss))
    ensures forall e :: e in FlattenL(ss) && e.Enter? ==> SeqOf(e.s).Some? && SeqOf(e.s).value in IdsL(ss)
    decreases SizeL(ss)
  {
    if ss.Cons? {
      EntriesInside(ss.head);
      EntriesInsideL(ss.tail);
      EntriesJoin(Flatten(ss.head), FlattenL(ss.tail));
    }
  }

  // ---------------------------------------------------------------- the result

  /** What the pointers show, once the links made are those of the program's forest */
  lemma LinksDraw(b: Builder, prog: Stmts)
    requires DistinctL(prog) && b.Valid() && b.Abstract() == State(Empty, Links(Root, ShapeL(prog)))
    ensures b.frames.NoFrames? && Drawn(b.first, b.next, b.headers, Root, ShapeL(prog))
  {
    var f := ShapeL(prog);
    ShapeIsCleanL(prog);
    assert b.log == Links(Root, f);
    LogDraws(b.first, b.next, b.headers, b.log, Root, f);
    ChildrenOutside(Root, f, Root);
    assert Threaded(b.first, b.next, Root, Kids(b.headers, b.log, Root));
  }

  /** The entries come with the operands that the earlier walk has linked. */
  ghost predicate OperandsLinked(es: seq<Entry>, h: map<nat, nat>) {
    forall e :: e in es && e.Enter? && !e.s.Generated? && SeqOf(e.s).Some? ==> HeadersRight(h, e.s)
  }

  /**
   Processing the list a program was flattened to, and popping what is completed as the next entry
   would, draws the program's forest.
   */
  method Rebuild(b: Builder, es: seq<Entry>, ghost prog: Stmts)
    requires es == FlattenL(prog) && DistinctL(prog) && WellEndedL(prog)
    requires b.Valid() && b.Abstract() == State(Empty, []) && OperandsLinked(es, b.headers)
    modifies b
    ensures b.Valid() && b.frames.NoFrames?
    ensures Drawn(b.first, b.next, b.headers, Root, ShapeL(prog))
  {
    EntriesInsideL(prog);
    b.Build(es);
    b.PopCompleted();
    Rebuilds(prog);
    LinksDraw(b, prog);
  }

  /** A program that ends in a block, such as a function body, is drawn by its own entries alone. */
  method RebuildBlocks(b: Builder, es: seq<Entry>, ghost prog: Stmts)
    requires es == FlattenL(prog) && DistinctL(prog) && WellEndedL(prog) && EndsInBlock(prog)
    requires b.Valid() && b.Abstract() == State(Empty, []) && OperandsLinked(es, b.headers)
    modifies b
    ensures b.Valid() && b.frames.NoFrames?
    ensures Drawn(b.first, b.next, b.headers, Root, ShapeL(prog))
  {
    EntriesInsideL(prog);
    b.Build(es);
    RebuildsBlocks(prog);
    LinksDraw(b, prog);
  }
}
