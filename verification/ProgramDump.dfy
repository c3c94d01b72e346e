/**
 From the source sequence list to the lines of the file: the pointers left by the statement stack
 unfold to one AST, and reading its dump back gives the forest of the program.
 */
module ProgramDump {
  import opened Basics
  import opened Statements
  import opened Nesting
  import opened RebuiltTree
  import Stack = StatementStack
  import Build = AstBuilder
  import Print = AstPrinter
  import Read = AstReader

  /** The text each node is given */
  type Label = Stack.Node -> string

  function Labelled(n: Stack.Node, name: Label, first: Print.Ast, next: Print.Ast): Print.Ast {
    Print.Node(false, false, false, "", Print.Words(name(n), None), "", first, next)
  }

  // ---------------------------------------------------------------- the AST of a program

  ghost function OperandCount(h: map<nat, nat>, n: Stack.Node): nat {
    |Build.Headers(h, n)|
  }

  /** The operands of n from the k-th on, and then its other children */
  ghost function Operands(h: map<nat, nat>, n: Stack.Node, k: nat, kids: Print.Ast, name: Label): Print.Ast
    decreases OperandCount(h, n) - k
  {
    if k >= OperandCount(h, n) then kids
    else Labelled(Build.Headers(h, n)[k], name, Print.Null, Operands(h, n, k + 1, kids, name))
  }

  /** The forest as an AST that suppresses nothing, with the operands each node carries */
  ghost function TreeOf(f: Stack.Forest, h: map<nat, nat>, name: Label): Print.Ast {
    match f
    case Leafless => Print.Null
    case Tree(n, kids, next) => Labelled(n, name, Operands(h, n, 0, TreeOf(kids, h, name), name), TreeOf(next, h, name))
  }

  // ---------------------------------------------------------------- the AST that the pointers unfold to

  /** Following first_child and next_sibling from start meets the nodes of a, and ends where a ends. */
  ghost predicate Shows(first: map<Stack.Node, Stack.Node>, next: map<Stack.Node, Stack.Node>,
                        start: Option<Stack.Node>, a: Print.Ast, name: Label)
    decreases a
  {
    if a.Null? then start.None?
    else
      && start.Some? && a == Labelled(start.value, name, a.first, a.next)
      && Shows(first, next, Build.At(first, start.value), a.first, name)
      && Shows(first, next, Build.At(next, start.value), a.next, name)
  }

  /** Pointers unfold to one AST at most. */
  lemma {:induction false} ShowsOne(first: map<Stack.Node, Stack.Node>, next: map<Stack.Node, Stack.Node>,
                                    start: Option<Stack.Node>, a: Print.Ast, b: Print.Ast, name: Label)
    requires Shows(first, next, start, a, name) && Shows(first, next, start, b, name)
    ensures a == b
    decreases a
  {
    if start.Some? {
      ShowsOne(first, next, Build.At(first, start.value), a.first, b.first, name);
      ShowsOne(first, next, Build.At(next, start.value), a.next, b.next, name);
    }
  }

  /** The k-th of a list of children, if there are so many */
  function Nth(ns: seq<Stack.Node>, k: nat): Option<Stack.Node> {
    if k < |ns| then Some(ns[k]) else None
  }

  /** The operands of n have no children. */
  ghost predicate BareOperands(first: map<Stack.Node, Stack.Node>, h: map<nat, nat>) {
    forall n, k :: 0 <= k < OperandCount(h, n) ==> Build.At(first, Build.Headers(h, n)[k]).None?
  }

  lemma OperandsAreBare(first: map<Stack.Node, Stack.Node>, next: map<Stack.Node, Stack.Node>, h: map<nat, nat>,
                        log: seq<Stack.Link>)
    requires Build.Represents(first, next, h, log)
    ensures BareOperands(first, h)
  {
    forall n, k | 0 <= k < OperandCount(h, n) ensures Build.At(first, Build.Headers(h, n)[k]).None? {
      var operand := Build.Headers(h, n)[k];
      assert Build.Threaded(first, next, operand, Build.Kids(h, log, operand));
      if Build.Children(log, operand) != [] {
        var child := Build.Children(log, operand)[0];
        Build.ChildrenAre(log, operand, child);
      }
    }
  }

  /** From the k-th child of p on, the pointers show the operands still to come and then the forest. */
  lemma {:induction false} OperandsShow(first: map<Stack.Node, Stack.Node>, next: map<Stack.Node, Stack.Node>,
                                        h: map<nat, nat>, p: Stack.Node, ns: seq<Stack.Node>, k: nat,
                                        kids: Print.Ast, name: Label)
    requires Build.Threaded(first, next, p, ns) && BareOperands(first, h) && k <= OperandCount(h, p)
    requires Build.Headers(h, p) <= ns
    requires Shows(first, next, Nth(ns, OperandCount(h, p)), kids, name)
    ensures Shows(first, next, Nth(ns, k), Operands(h, p, k, kids, name), name)
    decreases OperandCount(h, p) - k
  {
    if k < OperandCount(h, p) {
      OperandsShow(first, next, h, p, ns, k + 1, kids, name);
      NextIs(first, next, p, ns, k);
      OperandShows(first, next, h, p, k, Nth(ns, k + 1), Operands(h, p, k + 1, kids, name), name);
    }
  }

  lemma NextIs(first: map<Stack.Node, Stack.Node>, next: map<Stack.Node, Stack.Node>, p: Stack.Node,
               ns: seq<Stack.Node>, k: nat)
    requires Build.Threaded(first, next, p, ns) && k < |ns|
    ensures Build.At(next, ns[k]) == Nth(ns, k + 1)
  {
    assert Build.At(next, ns[k]) == Build.Successor(ns, k);
  }

  /** One operand in front of what its next_sibling leads to */
  lemma OperandShows(first: map<Stack.Node, Stack.Node>, next: map<Stack.Node, Stack.Node>, h: map<nat, nat>,
                     p: Stack.Node, k: nat, after: Option<Stack.Node>, rest: Print.Ast, name: Label)
    requires BareOperands(first, h) && k < OperandCount(h, p)
    requires Build.At(next, Build.Headers(h, p)[k]) == after && Shows(first, next, after, rest, name)
    ensures var operand := Build.Headers(h, p)[k];
      Shows(first, next, Some(operand), Labelled(operand, name, Print.Null, rest), name)
  {
  }

  /** The forest of which the k-th child of p is the first root */
  lemma {:induction false} RootsShow(first: map<Stack.Node, Stack.Node>, next: map<Stack.Node, Stack.Node>,
                                     h: map<nat, nat>, p: Stack.Node, ns: seq<Stack.Node>, k: nat,
                                     f: Stack.Forest, name: Label)
    requires Build.Threaded(first, next, p, ns) && BareOperands(first, h) && DrawnBelow(first, next, h, f)
    requires k <= |ns| && ns[k..] == Roots(f)
    ensures Shows(first, next, Nth(ns, k), TreeOf(f, h, name), name)
    decreases f
  {
    if f.Tree? {
      var n, inner := f.node, Build.Headers(h, f.node) + Roots(f.kids);
      assert ns[k] == n && ns[k + 1..] == Roots(f.next);
      NextIs(first, next, p, ns, k);
      RootsShow(first, next, h, p, ns, k + 1, f.next, name);
      assert inner[OperandCount(h, n)..] == Roots(f.kids);
      RootsShow(first, next, h, n, inner, OperandCount(h, n), f.kids, name);
      OperandsShow(first, next, h, n, inner, 0, TreeOf(f.kids, h, name), name);
      assert Build.At(first, n) == Nth(inner, 0);
    }
  }

  lemma DrawnShows(first: map<Stack.Node, Stack.Node>, next: map<Stack.Node, Stack.Node>, h: map<nat, nat>,
                   f: Stack.Forest, name: Label)
    requires Drawn(first, next, h, Stack.Root, f) && BareOperands(first, h)
    ensures Shows(first, next, Build.At(first, Stack.Root), TreeOf(f, h, name), name)
  {
    var ns := Build.Headers(h, Stack.Root) + Roots(f);
    assert ns == Roots(f) && ns[0..] == Roots(f);
    RootsShow(first, next, h, Stack.Root, ns, 0, f, name);
  }

  // ---------------------------------------------------------------- what the dump tells

  ghost predicate Injective(name: Label) {
    forall m, n :: name(m) == name(n) ==> m == n
  }

  lemma {:induction false} OperandsTell(h: map<nat, nat>, n: Stack.Node, k: nat, a: Print.Ast, b: Print.Ast,
                                       name: Label)
    requires Read.Erase(Operands(h, n, k, a, name)) == Read.Erase(Operands(h, n, k, b, name))
    ensures Read.Erase(a) == Read.Erase(b)
    decreases OperandCount(h, n) - k
  {
    if k < OperandCount(h, n) { OperandsTell(h, n, k + 1, a, b, name); }
  }

  /** With texts that tell the nodes apart, the erased forest tells the program's. */
  lemma {:induction false} TreesTell(f: Stack.Forest, g: Stack.Forest, h: map<nat, nat>, name: Label)
    requires Injective(name) && Read.Erase(TreeOf(f, h, name)) == Read.Erase(TreeOf(g, h, name))
    ensures f == g
    decreases f
  {
    if f.Tree? && g.Tree? {
      assert name(f.node) == name(g.node);
      OperandsTell(h, f.node, 0, TreeOf(f.kids, h, name), TreeOf(g.kids, h, name), name);
      TreesTell(f.kids, g.kids, h, name);
      TreesTell(f.next, g.next, h, name);
    }
  }

  /** Programs with the same dump have the same nesting. */
  lemma DumpTellsNesting(p: Stmts, q: Stmts, h: map<nat, nat>, name: Label, depth: nat, indent: bool)
    requires Injective(name)
    requires Print.Dump(TreeOf(Stack.ShapeL(p), h, name), depth, indent)
          == Print.Dump(TreeOf(Stack.ShapeL(q), h, name), depth, indent)
    ensures Stack.ShapeL(p) == Stack.ShapeL(q)
  {
    Read.RoundTrip(TreeOf(Stack.ShapeL(p), h, name), depth, indent);
    Read.RoundTrip(TreeOf(Stack.ShapeL(q), h, name), depth, indent);
    TreesTell(Stack.ShapeL(p), Stack.ShapeL(q), h, name);
  }

  /**
   The whole way: after the list of a program that ends in a block, the pointers unfold to the
   program's tree and to nothing else, and its dump is read back as the program's forest.
   */
  method ProcessProgram(b: Build.Builder, es: seq<Entry>, ghost prog: Stmts, ghost name: Label, ghost depth: nat,
                        ghost indent: bool)
    requires es == FlattenL(prog) && DistinctL(prog) && WellEndedL(prog) && EndsInBlock(prog)
    requires b.Valid() && b.Abstract() == Stack.State(Stack.Empty, []) && OperandsLinked(es, b.headers)
    modifies b
    ensures b.Valid()
    ensures var tree := TreeOf(Stack.ShapeL(prog), b.headers, name);
      && (forall a :: Shows(b.first, b.next, Build.At(b.first, Stack.Root), a, name) <==> a == tree)
      && Read.Parse(Print.Dump(tree, depth, indent), depth, indent) == Read.Got(Read.Erase(tree), [])
  {
    RebuildBlocks(b, es, prog);
    ghost var tree := TreeOf(Stack.ShapeL(prog), b.headers, name);
    OperandsAreBare(b.first, b.next, b.headers, b.log);
    DrawnShows(b.first, b.next, b.headers, Stack.ShapeL(prog), name);
    forall a | Shows(b.first, b.next, Build.At(b.first, Stack.Root), a, name) ensures a == tree {
      ShowsOne(b.first, b.next, Build.At(b.first, Stack.Root), a, tree, name);
    }
    Read.RoundTrip(tree, depth, indent);
  }
}
