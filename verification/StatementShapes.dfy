/**
 The forest of each kind of statement written out: what stands below its node, first and last,
 with null operands and breaks (aset_CCcc/src/SET_ast.c).
 */
module StatementShapes {
  import opened Basics
  import opened Statements
  import opened StatementStack
  import opened Nesting
  import opened AstBuilder
  import opened RebuiltTree

  lemma {:induction false} RootsGraft(a: Forest, b: Forest)
    ensures Roots(Graft(a, b)) == Roots(a) + Roots(b)
  {
    if a.Tree? { RootsGraft(a.next, b); }
  }

  lemma ListOfTwo(s: Stmt, ss: Stmts)
    ensures Roots(ShapeL(Cons(s, ss))) == Roots(Shape(s)) + Roots(ShapeL(ss))
  {
    RootsGraft(Shape(s), ShapeL(ss));
  }

  /** The nodes that stand for a part, if there is one */
  ghost function PartRoots(part: Option<Stmt>): seq<Node> {
    match part case None => [] case Some(s) => Roots(Shape(s))
  }

  /**
   Below an if, in order: a null operand where the then part is missing or an empty generated block,
   the then part, the else part, and a null operand for an else that is there but empty.
   */
  lemma IfRoots(id: nat, t: Option<Stmt>, e: Option<Stmt>, flag: bool)
    ensures var s := If(id, t, e, flag);
      && Shape(s).Tree? && Shape(s).node == Of(id) && Shape(s).next == Leafless
      && Roots(Shape(s).kids) ==
        (if t == None || (t.value.Generated? && t.value.statements == Nil) then [NullThen(id)] else [])
        + PartRoots(t) + PartRoots(e)
        + (if (t != None || e != None) && (flag || (e != None && e.value.Generated? && e.value.statements == Nil))
           then [NullElse(id)] else [])
  {
    var s := If(id, t, e, flag);
    var a := if LacksThen(s) then One(NullThen(id)) else Leafless;
    var b := if Pushed(s) && HasEmptyElse(s) then One(NullElse(id)) else Leafless;
    GraftRoots(a, ShapeL(Parts(s)), b);
    IfParts(id, t, e, flag);
    OneRoot(NullThen(id));
    OneRoot(NullElse(id));
    Regroup(Roots(a), PartRoots(t), PartRoots(e));
  }

  lemma OneRoot(n: Node)
    ensures Roots(One(n)) == [n] && Roots(Leafless) == []
  {
  }

  lemma GraftRoots(a: Forest, b: Forest, c: Forest)
    ensures Roots(Graft(a, Graft(b, c))) == Roots(a) + Roots(b) + Roots(c)
  {
    RootsGraft(b, c);
    RootsGraft(a, Graft(b, c));
    Regroup(Roots(a), Roots(b), Roots(c));
  }

  lemma IfParts(id: nat, t: Option<Stmt>, e: Option<Stmt>, flag: bool)
    ensures Roots(ShapeL(Parts(If(id, t, e, flag)))) == PartRoots(t) + PartRoots(e)
  {
    if e.Some? { ListOfTwo(e.value, Nil); }
    if t.Some? { ListOfTwo(t.value, if e.Some? then Cons(e.value, Nil) else Nil); }
  }

  /** Only statements stand among the nodes of a list: operands and breaks are inside them. */
  lemma {:induction false} RootsAreStatements(s: Stmt)
    ensures forall n :: n in Roots(Shape(s)) ==> n.Of? && n.id in Ids(s)
    decreases Size(s)
  {
    PartsSize(s);
    if s.Generated? {
      ListRootsAreStatements(s.statements);
    }
  }

  lemma {:induction false} ListRootsAreStatements(ss: Stmts)
    ensures forall n :: n in Roots(ShapeL(ss)) ==> n.Of? && n.id in IdsL(ss)
    decreases SizeL(ss)
  {
    if ss.Cons? {
      RootsAreStatements(ss.head);
      ListRootsAreStatements(ss.tail);
      RootsGraft(Shape(ss.head), ShapeL(ss.tail));
    }
  }

  /** The null operand stands in the place of the then part exactly if nothing else would. */
  lemma ThenPlace(id: nat, t: Option<Stmt>, e: Option<Stmt>, flag: bool)
    ensures var roots := Roots(Shape(If(id, t, e, flag)).kids);
      (roots != [] && roots[0] == NullThen(id)) <==> t == None || (t.value.Generated? && t.value.statements == Nil)
  {
    IfRoots(id, t, e, flag);
    PartRootsAreStatements(t);
    PartRootsAreStatements(e);
    var body := PartRoots(t) + PartRoots(e);
    assert forall n :: n in body ==> n.Of?;
    assert body != [] ==> body[0] in body;
  }

  lemma PartRootsAreStatements(part: Option<Stmt>)
    ensures forall n :: n in PartRoots(part) ==> n.Of?
  {
    if part.Some? { RootsAreStatements(part.value); }
  }

  /** The last node tells whether the if has an empty else. */
  lemma ElsePlace(id: nat, t: Option<Stmt>, e: Option<Stmt>, flag: bool)
    ensures var roots := Roots(Shape(If(id, t, e, flag)).kids);
      (roots != [] && roots[|roots| - 1] == NullElse(id)) <==>
        (t != None || e != None) && (flag || (e != None && e.value.Generated? && e.value.statements == Nil))
  {
    IfRoots(id, t, e, flag);
    PartRootsAreStatements(t);
    PartRootsAreStatements(e);
    var body := PartRoots(t) + PartRoots(e);
    assert forall n :: n in body ==> n.Of?;
    assert body != [] ==> body[|body| - 1] in body;
  }

  /**
   A node of the else part never stands in the place of the then part, unless the then part is there
   without being empty and yet makes no node: a statement without an entry, or a block of such.
   */
  lemma ElseIsNotThen(id: nat, t: Option<Stmt>, e: Stmt, flag: bool)
    requires Distinct(If(id, t, Some(e), flag))
    ensures var roots := Roots(Shape(If(id, t, Some(e), flag)).kids);
      roots != [] && roots[0] in Roots(Shape(e)) ==>
        && t.Some? && Roots(Shape(t.value)) == []
        && (t.value.Hidden? || (t.value.Generated? && t.value.statements != Nil))
  {
    var s, roots := If(id, t, Some(e), flag), Roots(Shape(If(id, t, Some(e), flag)).kids);
    IfRoots(id, t, Some(e), flag);
    RootsAreStatements(e);
    if t.Some? {
      RootsAreStatements(t.value);
      assert Parts(s) == Cons(t.value, Cons(e, Nil)) && IdsL(Cons(e, Nil)) == Ids(e);
      var then_ := Roots(Shape(t.value));
      if then_ != [] { assert then_[0] in then_; }
    }
  }

  /** Below a switch clause: its statements, and a break if the source had one at the end. */
  lemma ClauseRoots(id: nat, ss: Stmts, break_: bool)
    ensures var s := Clause(id, ss, break_);
      && Shape(s).Tree? && Shape(s).node == Of(id) && Shape(s).next == Leafless
      && Roots(Shape(s).kids) == Roots(ShapeL(ss)) + if break_ then [BreakOf(id)] else []
  {
    RootsGraft(ShapeL(ss), if break_ then One(BreakOf(id)) else Leafless);
    assert Roots(Leafless) == [];
  }

  /** Loops, for loops and blocks have just their parts; a generated block gives its own to its parent. */
  lemma OtherRoots(kind: LoopKind, id: nat, body: Option<Stmt>, init: Option<nat>, ss: Stmts, entry: Option<nat>)
    ensures Shape(Loop(kind, id, body)).Tree? && Shape(Loop(kind, id, body)).node == Of(id)
    ensures Roots(Shape(Loop(kind, id, body)).kids) == PartRoots(body)
    ensures Shape(For(id, init, body)).Tree? && Shape(For(id, init, body)).node == Of(id)
    ensures Roots(Shape(For(id, init, body)).kids) == PartRoots(body)
    ensures Shape(Block(id, ss)) == Tree(Of(id), ShapeL(ss), Leafless)
    ensures Shape(Generated(entry, ss)) == ShapeL(ss) && Shape(Hidden) == Leafless
    ensures Shape(Plain(id)) == Tree(Of(id), Leafless, Leafless)
  {
    if body.Some? { ListOfTwo(body.value, Nil); }
  }
}
