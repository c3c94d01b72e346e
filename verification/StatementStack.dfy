/**
 The statement stack machine on values: what one source sequence entry does to the stack
 and which links between nodes it makes.
 */
module StatementStack {
  import opened Basics
  import opened Statements

  /** An AST node.  The null operands and the synthesised break belong to the statement they serve. */
  datatype Node =
    Root | Of(id: nat) | Header(id: nat, k: nat) | NullThen(id: nat) | NullElse(id: nat) | BreakOf(id: nat)

  /** child was chained at the end of the children of parent. */
  datatype Link = Link(parent: Node, child: Node)

  /** A stack entry: the construct it stands for, ending_stmt and do_pop. */
  datatype Frame = Frame(stmt: Stmt, ending: Option<nat>, doPop: bool)

  datatype Stack = Empty | Push(top: Frame, rest: Stack)

  datatype State = State(stack: Stack, log: seq<Link>)

  /** The node whose children the frame is collecting. */
  function NodeOf(f: Frame): Node {
    if SeqOf(f.stmt).Some? then Of(SeqOf(f.stmt).value) else Root
  }

  /** Where the next node is chained: the top of the stack, or the file's list of top-level nodes. */
  function Parent(stack: Stack): Node {
    if stack.Push? then NodeOf(stack.top) else Root
  }

  function Chain(st: State, n: Node): State {
    st.(log := st.log + [Link(Parent(st.stack), n)])
  }

  /** The links made when a completed construct is popped. */
  function PopLinks(f: Frame): seq<Link> {
    match f.stmt
    case Clause(id, _, true) => [Link(Of(id), BreakOf(id))]
    case If(id, _, _, _) => if HasEmptyElse(f.stmt) then [Link(Of(id), NullElse(id))] else []
    case _ => []
  }

  /** The constructs whose end has been seen leave the stack. */
  function Settle(st: State): State
    decreases st.stack
  {
    if st.stack.Push? && st.stack.top.doPop then
      Settle(State(st.stack.rest, st.log + PopLinks(st.stack.top)))
    else st
  }

  /** Is this entry the one that ends the construct on top?  A generated block hands the role on. */
  function Note(st: State, e: Entry): State {
    if st.stack.Push? && e.Enter? && st.stack.top.ending.Some? && st.stack.top.ending == SeqOf(e.s) then
      var top := st.stack.top;
      var handOn := if e.s.Generated? then LastSeq(e.s.statements) else None;
      var top' := if handOn.Some? then top.(ending := handOn, doPop := false) else top.(doPop := true);
      st.(stack := Push(top', st.stack.rest))
    else st
  }

  /** The links made at once for a construct: a null operand for a missing "then", a lone break. */
  function EntryLinks(s: Stmt): seq<Link> {
    match s
    case If(id, t, e, _) => if LacksThen(s) then [Link(Of(id), NullThen(id))] else []
    case Clause(id, ss, true) => if LastSeq(ss).None? then [Link(Of(id), BreakOf(id))] else []
    case _ => []
  }

  /** The frame push_stmt leaves, given what determine_stack_ending_stmt finds. */
  function FrameOf(s: Stmt): Frame {
    Frame(s, Ending(s), !s.Block? && Ending(s).None?)
  }

  function Act(st: State, e: Entry): State {
    match e
    case Init(_) => st
    case End(_) => if st.stack.Push? then st.(stack := st.stack.rest) else st
    case Enter(s) =>
      if s.Generated? || SeqOf(s).None? then st
      else
        var chained := Chain(st, Of(SeqOf(s).value));
        var linked := chained.(log := chained.log + EntryLinks(s));
        if Pushed(s) then linked.(stack := Push(FrameOf(s), linked.stack)) else linked
  }

  function Step(st: State, e: Entry): State {
    Act(Note(Settle(st), e), e)
  }

  ghost function Run(es: seq<Entry>, st: State): State {
    if es == [] then st else Run(es[1..], Step(st, es[0]))
  }

  // ---------------------------------------------------------------- the tree that is expected

  /** A forest in first-child / next-sibling form. */
  datatype Forest = Leafless | Tree(node: Node, kids: Forest, next: Forest)

  function Graft(a: Forest, b: Forest): Forest {
    match a case Leafless => b case Tree(n, k, t) => Tree(n, k, Graft(t, b))
  }

  function One(n: Node): Forest {
    Tree(n, Leafless, Leafless)
  }

  /** The nodes a statement contributes: generated blocks are spliced into their parent. */
  ghost function Shape(s: Stmt): Forest
    decreases Size(s)
  {
    PartsSize(s);
    var inner := ShapeL(Parts(s));
    match s
    case Hidden => Leafless
    case Generated(_, _) => inner
    case If(id, _, _, _) =>
      Tree(Of(id),
           Graft(if LacksThen(s) then One(NullThen(id)) else Leafless,
                 Graft(inner, if Pushed(s) && HasEmptyElse(s) then One(NullElse(id)) else Leafless)),
           Leafless)
    case Clause(id, _, br) => Tree(Of(id), Graft(inner, if br then One(BreakOf(id)) else Leafless), Leafless)
    case _ => Tree(Of(s.id), inner, Leafless)
  }

  ghost function ShapeL(ss: Stmts): Forest
    decreases SizeL(ss)
  {
    match ss case Nil => Leafless case Cons(s, rest) => Graft(Shape(s), ShapeL(rest))
  }

  /** The links that build a forest under p, parents before children, left to right. */
  function Links(p: Node, f: Forest): seq<Link>
    decreases f
  {
    match f
    case Leafless => []
    case Tree(n, kids, next) => [Link(p, n)] + Links(n, kids) + Links(p, next)
  }

  lemma {:induction false} LinksGraft(p: Node, a: Forest, b: Forest)
    ensures Links(p, Graft(a, b)) == Links(p, a) + Links(p, b)
  {
    if a.Tree? {
      LinksGraft(p, a.next, b);
    }
  }
}
