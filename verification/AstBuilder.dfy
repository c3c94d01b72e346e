/**
 The statement stack as the program keeps it: nodes threaded by first_child and next_sibling
 pointers that are overwritten in place, and stack entries that hold the address of the
 pointer to overwrite next.  Each operation is proved against the machine on values.
 */
module AstBuilder {
  import opened Basics
  import opened Statements
  import opened StatementStack

  /** The address of a pointer field of a node (ast_node_info_ptr*). */
  datatype Slot = FirstChild(n: Node) | NextSibling(n: Node)

  /** Stack entries with their link field. */
  datatype Frames = NoFrames | Frames(top: Frame, link: Slot, rest: Frames)

  function StackOf(fs: Frames): Stack {
    match fs case NoFrames => Empty case Frames(f, _, rest) => Push(f, StackOf(rest))
  }

  function At(m: map<Node, Node>, n: Node): Option<Node> {
    if n in m then Some(m[n]) else None
  }

  // ---------------------------------------------------------------- the children of a node

  ghost function Linked(log: seq<Link>): set<Node> {
    set l | l in log :: l.child
  }

  /** The nodes chained under p, in order. */
  ghost function Children(log: seq<Link>, p: Node): seq<Node> {
    if log == [] then []
    else
      var last := log[|log| - 1];
      Children(log[..|log| - 1], p) + (if last.parent == p then [last.child] else [])
  }

  /** The operands already linked below a statement's node when its entry is reached. */
  ghost function Headers(h: map<nat, nat>, p: Node): seq<Node> {
    if p.Of? && p.id in h then seq(h[p.id], (k: nat) => Header(p.id, k)) else []
  }

  ghost function Kids(h: map<nat, nat>, log: seq<Link>, p: Node): seq<Node> {
    Headers(h, p) + Children(log, p)
  }

  /** The pointer to overwrite to add one more child. */
  ghost function SlotAfter(p: Node, kids: seq<Node>): Slot {
    if kids == [] then FirstChild(p) else NextSibling(kids[|kids| - 1])
  }

  ghost function Successor(kids: seq<Node>, i: nat): Option<Node> {
    if i + 1 < |kids| then Some(kids[i + 1]) else None
  }

  /** The first_child / next_sibling chain from p runs exactly through kids. */
  ghost predicate Threaded(first: map<Node, Node>, next: map<Node, Node>, p: Node, kids: seq<Node>) {
    && At(first, p) == (if kids == [] then None else Some(kids[0]))
    && forall i :: 0 <= i < |kids| ==> At(next, kids[i]) == Successor(kids, i)
  }

  /** Every node has at most one parent, and parents other than the root have been linked themselves. */
  ghost predicate LogOk(log: seq<Link>) {
    && (forall i, j :: 0 <= i < j < |log| ==> log[i].child != log[j].child)
    && (forall l :: l in log ==> !l.child.Header? && !l.child.Root? && (l.parent == Root || l.parent in Linked(log)))
  }

  lemma {:induction false} ChildrenAre(log: seq<Link>, p: Node, n: Node)
    ensures n in Children(log, p) <==> Link(p, n) in log
  {
    if log != [] {
      var init, last := log[..|log| - 1], log[|log| - 1];
      ChildrenAre(init, p, n);
      assert log == init + [last];
    }
  }

  lemma ChildrenAppend(log: seq<Link>, l: Link, p: Node)
    ensures Children(log + [l], p) == Children(log, p) + (if l.parent == p then [l.child] else [])
  {
    assert (log + [l])[..|log|] == log;
  }

  ghost predicate DistinctNodes(ns: seq<Node>) {
    forall i, j :: 0 <= i < j < |ns| ==> ns[i] != ns[j]
  }

  lemma {:induction false} ChildrenDistinct(log: seq<Link>, p: Node)
    requires forall i, j :: 0 <= i < j < |log| ==> log[i].child != log[j].child
    ensures DistinctNodes(Children(log, p))
  {
    if log != [] {
      var init, last := log[..|log| - 1], log[|log| - 1];
      ChildrenDistinct(init, p);
      ChildrenAre(init, p, last.child);
    }
  }

  /** A node is a child of one node only, once. */
  lemma KidsApart(h: map<nat, nat>, log: seq<Link>, p: Node, q: Node)
    requires LogOk(log)
    ensures p != q ==> forall n :: n in Kids(h, log, p) ==> n !in Kids(h, log, q)
    ensures DistinctNodes(Kids(h, log, p))
  {
    forall n | n in Children(log, p)
      ensures Link(p, n) in log && (p != q ==> n !in Children(log, q))
    {
      ChildrenAre(log, p, n);
      ChildrenAre(log, q, n);
    }
    forall n | n in Children(log, q) || n in Children(log, p) ensures !n.Header? {
      ChildrenAre(log, q, n);
      ChildrenAre(log, p, n);
    }
    ChildrenDistinct(log, p);
    ConcatDistinct(Headers(h, p), Children(log, p));
  }

  lemma ConcatDistinct(a: seq<Node>, b: seq<Node>)
    requires DistinctNodes(a) && DistinctNodes(b)
    requires forall n :: n in a ==> n !in b
    ensures DistinctNodes(a + b)
  {
    forall i, j | 0 <= i < j < |a + b| ensures (a + b)[i] != (a + b)[j] {
      if i < |a| <= j {
        assert (a + b)[i] in a && (a + b)[j] in b;
      }
    }
  }

  /** The pointers are those of the log, and nothing else is threaded. */
  ghost predicate Represents(first: map<Node, Node>, next: map<Node, Node>, h: map<nat, nat>, log: seq<Link>) {
    && LogOk(log)
    && (forall n :: n in next ==> n.Header? || n in Linked(log))
    && (forall p {:trigger Threaded(first, next, p, Kids(h, log, p))} :: Threaded(first, next, p, Kids(h, log, p)))
  }

  function FirstAfter(first: map<Node, Node>, slot: Slot, n: Node): map<Node, Node> {
    if slot.FirstChild? then first[slot.n := n] else first
  }

  function NextAfter(next: map<Node, Node>, slot: Slot, n: Node): map<Node, Node> {
    if slot.NextSibling? then next[slot.n := n] else next
  }

  ghost predicate FreshNode(log: seq<Link>, n: Node) {
    !n.Header? && !n.Root? && n !in Linked(log)
  }

  lemma LogOkAppend(log: seq<Link>, p: Node, n: Node)
    requires LogOk(log) && FreshNode(log, n) && (p == Root || p in Linked(log))
    ensures LogOk(log + [Link(p, n)]) && Linked(log + [Link(p, n)]) == Linked(log) + {n}
  {
    var log' := log + [Link(p, n)];
    forall i, j | 0 <= i < j < |log'| ensures log'[i].child != log'[j].child {
      assert log'[i] in log;
    }
    assert forall l :: l in log' <==> l in log || l == Link(p, n);
  }

  /** Overwriting the slot after the last child appends one child and disturbs no other list. */
  lemma RelinkAppends(first: map<Node, Node>, next: map<Node, Node>, h: map<nat, nat>, log: seq<Link>, p: Node, n: Node)
    requires Represents(first, next, h, log) && FreshNode(log, n) && (p == Root || p in Linked(log))
    ensures var slot := SlotAfter(p, Kids(h, log, p));
            Represents(FirstAfter(first, slot, n), NextAfter(next, slot, n), h, log + [Link(p, n)])
  {
    var slot := SlotAfter(p, Kids(h, log, p));
    var log' := log + [Link(p, n)];
    LogOkAppend(log, p, n);
    forall q ensures Threaded(FirstAfter(first, slot, n), NextAfter(next, slot, n), q, Kids(h, log', q)) {
      RelinkKeeps(first, next, h, log, p, n, q);
    }
    forall m | m in NextAfter(next, slot, n) ensures m.Header? || m in Linked(log') {
      ChildrenAre(log, p, m);
    }
  }

  lemma KidsAppend(h: map<nat, nat>, log: seq<Link>, p: Node, n: Node, q: Node)
    ensures Kids(h, log + [Link(p, n)], q) == if q == p then Kids(h, log, q) + [n] else Kids(h, log, q)
  {
    ChildrenAppend(log, Link(p, n), q);
  }

  lemma RelinkKeeps(first: map<Node, Node>, next: map<Node, Node>, h: map<nat, nat>, log: seq<Link>,
                    p: Node, n: Node, q: Node)
    requires Represents(first, next, h, log) && FreshNode(log, n)
    ensures var slot := SlotAfter(p, Kids(h, log, p));
            Threaded(FirstAfter(first, slot, n), NextAfter(next, slot, n), q, Kids(h, log + [Link(p, n)], q))
  {
    var kids := Kids(h, log, p);
    assert Threaded(first, next, q, Kids(h, log, q));
    KidsApart(h, log, p, q);
    KidsAppend(h, log, p, n, q);
    if q == p {
      KidsNotFresh(h, log, p, n);
      ThreadGrows(first, next, p, kids, n);
    } else {
      assert kids != [] ==> kids[|kids| - 1] in kids;
      ThreadKept(first, next, q, Kids(h, log, q), SlotAfter(p, kids), n);
    }
  }

  lemma ThreadKept(first: map<Node, Node>, next: map<Node, Node>, q: Node, kids: seq<Node>, slot: Slot, n: Node)
    requires Threaded(first, next, q, kids)
    requires if slot.FirstChild? then slot.n != q else slot.n !in kids
    ensures Threaded(FirstAfter(first, slot, n), NextAfter(next, slot, n), q, kids)
  {
  }

  lemma ThreadGrows(first: map<Node, Node>, next: map<Node, Node>, p: Node, kids: seq<Node>, n: Node)
    requires Threaded(first, next, p, kids) && n !in kids && n !in next
    requires DistinctNodes(kids)
    ensures Threaded(FirstAfter(first, SlotAfter(p, kids), n), NextAfter(next, SlotAfter(p, kids), n), p, kids + [n])
  {
    var more := kids + [n];
    var next' := NextAfter(next, SlotAfter(p, kids), n);
    forall i | 0 <= i < |more|
      ensures At(next', more[i]) == Successor(more, i)
    {
      if i < |kids| {
        assert more[i] == kids[i] && kids[i] in kids;
      }
    }
  }

  lemma KidsNotFresh(h: map<nat, nat>, log: seq<Link>, p: Node, n: Node)
    requires FreshNode(log, n)
    ensures n !in Kids(h, log, p)
  {
    ChildrenAre(log, p, n);
  }

  // ---------------------------------------------------------------- the stack entries

  ghost function FrameNodes(fs: Frames): set<Node> {
    match fs case NoFrames => {} case Frames(f, _, rest) => {NodeOf(f)} + FrameNodes(rest)
  }

  /** No node that statement id may still cause has been linked. */
  ghost predicate Untouched(log: seq<Link>, id: nat) {
    NullThen(id) !in Linked(log) && NullElse(id) !in Linked(log) && BreakOf(id) !in Linked(log)
  }

  ghost predicate ClosingUntouched(log: seq<Link>, id: nat) {
    NullElse(id) !in Linked(log) && BreakOf(id) !in Linked(log)
  }

  /** Each stack entry belongs to a different linked node and points to the end of its children. */
  ghost predicate FramesOk(fs: Frames, h: map<nat, nat>, log: seq<Link>) {
    match fs
    case NoFrames => true
    case Frames(f, link, rest) =>
      && SeqOf(f.stmt).Some?
      && NodeOf(f) in Linked(log) && NodeOf(f) !in FrameNodes(rest)
      && ClosingUntouched(log, NodeOf(f).id)
      && link == SlotAfter(NodeOf(f), Kids(h, log, NodeOf(f)))
      && FramesOk(rest, h, log)
  }

  lemma LinkedAppend(log: seq<Link>, l: Link)
    ensures Linked(log + [l]) == Linked(log) + {l.child}
  {
    assert forall m :: m in log + [l] <==> m in log || m == l;
  }

  /** n is not the closing node of a construct that is still open. */
  predicate Elsewhere(n: Node, open: set<Node>) {
    (n.NullElse? || n.BreakOf? ==> Of(n.id) !in open)
  }

  /** Linking a node elsewhere does not concern these entries. */
  lemma {:induction false} FramesKept(fs: Frames, h: map<nat, nat>, log: seq<Link>, p: Node, n: Node)
    requires FramesOk(fs, h, log) && p !in FrameNodes(fs)
    requires Elsewhere(n, FrameNodes(fs))
    ensures FramesOk(fs, h, log + [Link(p, n)])
  {
    if fs.Frames? {
      var m := NodeOf(fs.top);
      assert m in FrameNodes(fs);
      ChildrenAppend(log, Link(p, n), m);
      assert Kids(h, log + [Link(p, n)], m) == Kids(h, log, m);
      LinkedAppend(log, Link(p, n));
      FramesKept(fs.rest, h, log, p, n);
    }
  }

  lemma TopAdvances(fs: Frames, h: map<nat, nat>, log: seq<Link>, n: Node)
    requires fs.Frames? && FramesOk(fs, h, log) && (n.Of? || n.NullThen?)
    ensures FramesOk(fs.(link := NextSibling(n)), h, log + [Link(NodeOf(fs.top), n)])
  {
    var p := NodeOf(fs.top);
    ChildrenAppend(log, Link(p, n), p);
    LinkedAppend(log, Link(p, n));
    FramesKept(fs.rest, h, log, p, n);
    assert Kids(h, log + [Link(p, n)], p) == Kids(h, log, p) + [n];
  }

  lemma {:induction false} FrameNodesLinked(fs: Frames, h: map<nat, nat>, log: seq<Link>)
    requires FramesOk(fs, h, log)
    ensures FrameNodes(fs) <= Linked(log)
    ensures forall m :: m in FrameNodes(fs) ==> m.Of? && ClosingUntouched(log, m.id)
  {
    if fs.Frames? { FrameNodesLinked(fs.rest, h, log); }
  }

  /** Nothing of statement id is linked yet. */
  ghost predicate FreshId(log: seq<Link>, id: nat) {
    Of(id) !in Linked(log) && Untouched(log, id)
  }

  ghost predicate KeepsAllFresh(before: seq<Link>, after: seq<Link>) {
    forall id: nat :: FreshId(before, id) ==> FreshId(after, id)
  }

  /** The node owed at the end of a construct: a synthesised break, or the operand of "else;". */
  function ClosingNode(f: Frame): Option<Node> {
    match f.stmt
    case Clause(id, _, true) => Some(BreakOf(id))
    case If(id, _, _, _) => if HasEmptyElse(f.stmt) then Some(NullElse(id)) else None
    case _ => None
  }

  lemma ClosingIsNew(fs: Frames, h: map<nat, nat>, log: seq<Link>)
    requires fs.Frames? && FramesOk(fs, h, log)
    ensures var owed := ClosingNode(fs.top);
            && PopLinks(fs.top) == (if owed.Some? then [Link(NodeOf(fs.top), owed.value)] else [])
            && (owed.Some? ==> FreshNode(log, owed.value) && Elsewhere(owed.value, FrameNodes(fs.rest)))
            && log + [] == log
  {
  }

  lemma ClosingKeepsFresh(log: seq<Link>, f: Frame)
    requires NodeOf(f) in Linked(log)
    ensures KeepsAllFresh(log, log + PopLinks(f))
  {
    assert log + [] == log;
    if PopLinks(f) != [] {
      assert PopLinks(f) == [PopLinks(f)[0]];
      LinkedAppend(log, PopLinks(f)[0]);
    }
  }

  lemma FreshHasNoChildren(log: seq<Link>, id: nat, p: Node)
    requires LogOk(log) && FreshId(log, id) && p != Of(id)
    ensures Children(log, Of(id)) == [] && Children(log + [Link(p, Of(id))], Of(id)) == []
  {
    if Children(log, Of(id)) != [] {
      ChildrenAre(log, Of(id), Children(log, Of(id))[0]);
    }
    ChildrenAppend(log, Link(p, Of(id)), Of(id));
  }

  /** Once its node is chained, a fresh statement can open its level. */
  lemma ReadyToOpen(fs: Frames, h: map<nat, nat>, log: seq<Link>, id: nat)
    requires LogOk(log) && FramesOk(fs, h, log) && FreshId(log, id)
    ensures var log' := log + [Link(Parent(StackOf(fs)), Of(id))];
            && Of(id) in Linked(log') && Of(id) !in FrameNodes(fs)
            && Children(log', Of(id)) == [] && Untouched(log', id)
  {
    FrameNodesLinked(fs, h, log);
    FreshHasNoChildren(log, id, Parent(StackOf(fs)));
    LinkedAppend(log, Link(Parent(StackOf(fs)), Of(id)));
  }

  ghost function Opened(stack: Stack, s: Stmt): Stack {
    if Pushed(s) then Push(FrameOf(s), stack) else stack
  }

  lemma ActOpens(st: State, s: Stmt)
    requires SeqOf(s).Some? && !s.Generated?
    ensures Act(st, Enter(s)) == State(Opened(st.stack, s), st.log + [Link(Parent(st.stack), Of(s.id))] + EntryLinks(s))
  {
  }

  /** A statement that takes one operand and has no other child yet. */
  lemma FreshSlot(h: map<nat, nat>, log: seq<Link>, s: Stmt)
    requires s.If? || s.Clause?
    requires HeadersRight(h, s) && Children(log, Of(s.id)) == []
    ensures SlotAfter(Of(s.id), Kids(h, log, Of(s.id))) == NextSibling(Header(s.id, 0))
  {
  }

  /** The entry's statement carries its operands and has not been linked. */
  ghost predicate Unprocessed(h: map<nat, nat>, log: seq<Link>, e: Entry) {
    e.Enter? ==>
      SeqOf(e.s).Some? && (e.s.Generated? || (HeadersRight(h, e.s) && FreshId(log, e.s.id)))
  }

  /** Only the statement of this entry stops being fresh. */
  ghost predicate KeepsFresh(before: seq<Link>, after: seq<Link>, e: Entry) {
    forall id: nat :: !(e.Enter? && SeqOf(e.s) == Some(id)) && FreshId(before, id) ==> FreshId(after, id)
  }

  /** No two entries stand for the same statement. */
  ghost predicate EntriesDistinct(es: seq<Entry>) {
    forall i, j :: 0 <= i < j < |es| && es[i].Enter? && es[j].Enter? ==> SeqOf(es[i].s) != SeqOf(es[j].s)
  }

  lemma TopChanges(fs: Frames, f: Frame, h: map<nat, nat>, log: seq<Link>)
    requires fs.Frames? && FramesOk(fs, h, log) && f.stmt == fs.top.stmt
    ensures FramesOk(fs.(top := f), h, log) && FrameNodes(fs.(top := f)) == FrameNodes(fs)
  {
  }

  lemma AppendKeepsFresh(log: seq<Link>, l: Link, e: Entry, after: seq<Link>)
    requires e.Enter? && SeqOf(e.s).Some? && !e.s.Generated?
    requires l.child in {Of(e.s.id), NullThen(e.s.id), BreakOf(e.s.id)}
    requires KeepsFresh(log + [l], after, e)
    ensures KeepsFresh(log, after, e)
  {
    LinkedAppend(log, l);
  }

  lemma ActKeepsFresh(st: State, e: Entry)
    ensures KeepsFresh(st.log, Act(st, e).log, e)
  {
    if e.Enter? && !e.s.Generated? && SeqOf(e.s).Some? {
      var l, after := Link(Parent(st.stack), Of(e.s.id)), Act(st, e).log;
      ActOpens(st, e.s);
      if EntryLinks(e.s) == [] {
        assert after == st.log + [l];
      } else {
        var m := EntryLinks(e.s)[0];
        assert after == st.log + [l] + [m];
        AppendKeepsFresh(st.log + [l], m, e, after);
      }
      AppendKeepsFresh(st.log, l, e, after);
    }
  }

  lemma FreshChain(a: seq<Link>, b: seq<Link>, c: seq<Link>, e: Entry)
    requires KeepsAllFresh(a, b) && KeepsFresh(b, c, e)
    ensures KeepsFresh(a, c, e)
  {
  }

  lemma FileSlot(first: map<Node, Node>, next: map<Node, Node>, h: map<nat, nat>, log: seq<Link>)
    requires Represents(first, next, h, log)
    ensures Kids(h, log, Root) == Children(log, Root)
    ensures Root !in first <==> Children(log, Root) == []
    ensures Root in first ==>
      SlotAfter(Root, Kids(h, log, Root)) == NextSibling(Children(log, Root)[|Children(log, Root)| - 1])
  {
    assert Threaded(first, next, Root, Kids(h, log, Root));
  }

  // ---------------------------------------------------------------- the operations

  /** determine_stack_ending_stmt, and the loop that finds the ending of a switch clause. */
  method DetermineStackEndingStmt(s: Stmt) returns (ending: Option<nat>)
    ensures ending == Ending(s)
  {
    ending := None;
    match s {
      case If(_, t, e, _) =>
        if e.Some? { ending := SetStackEndingStmt(e.value); } else if t.Some? { ending := SetStackEndingStmt(t.value); }
      case Loop(_, _, b) => if b.Some? { ending := SetStackEndingStmt(b.value); }
      case For(_, _, b) => if b.Some? { ending := SetStackEndingStmt(b.value); }
      case Clause(_, ss, _) => ending := LastEntry(ss);
      case _ =>
    }
  }

  method LastEntry(ss: Stmts) returns (ending: Option<nat>)
    ensures ending == LastSeq(ss)
  {
    ending := None;
    var sp := ss;
    while sp.Cons?
      invariant LastSeq(ss) == if LastSeq(sp).Some? then LastSeq(sp) else ending
      decreases sp
    {
      if SeqOf(sp.head).Some? {
        ending := SeqOf(sp.head);
      }
      sp := sp.tail;
    }
  }

  /** The operands a statement's node carries: an expression, or three for a for loop. */
  ghost predicate HeadersRight(h: map<nat, nat>, s: Stmt) {
    && (s.If? || s.Loop? || s.Clause? ==> s.id in h && h[s.id] == 1)
    && (s.For? ==> s.id in h && h[s.id] == 3)
    && (s.Block? ==> s.id !in h)
  }

  /** The operands in front of a statement's children */
  lemma OperandsAre(h: map<nat, nat>, s: Stmt)
    requires HeadersRight(h, s)
    ensures s.If? || s.Loop? || s.Clause? ==> Headers(h, Of(s.id)) == [Header(s.id, 0)]
    ensures s.For? ==> Headers(h, Of(s.id)) == [Header(s.id, 0), Header(s.id, 1), Header(s.id, 2)]
    ensures s.Block? ==> Headers(h, Of(s.id)) == []
  {
  }

  class Builder {
    const headers: map<nat, nat>
    var frames: Frames
    var first: map<Node, Node>
    var next: map<Node, Node>
    var lastTop: Option<Node>
    ghost var log: seq<Link>

    ghost predicate Valid()
      reads this
    {
      && Represents(first, next, headers, log)
      && FramesOk(frames, headers, log)
      && LastTopRight()
    }

    ghost predicate LastTopRight()
      reads this
    {
      var c := Children(log, Root);
      lastTop == if c == [] then None else Some(c[|c| - 1])
    }

    ghost function Abstract(): State
      reads this
    {
      State(StackOf(frames), log)
    }

    /** The links made by the earlier walk thread each node through its operands only. */
    constructor (headers: map<nat, nat>, first: map<Node, Node>, next: map<Node, Node>)
      requires Represents(first, next, headers, [])
      ensures Valid() && Abstract() == State(Empty, [])
      ensures this.headers == headers
    {
      this.headers := headers;
      this.frames, this.first, this.next, this.lastTop, this.log := NoFrames, first, next, None, [];
    }

    /** *link = p: overwrites the pointer at the end of a list of children. */
    method Relink(ghost p: Node, link: Slot, n: Node)
      requires Represents(first, next, headers, log) && FreshNode(log, n) && (p == Root || p in Linked(log))
      requires link == SlotAfter(p, Kids(headers, log, p))
      modifies `first, `next, `log
      ensures log == old(log) + [Link(p, n)] && Represents(first, next, headers, log)
    {
      RelinkAppends(first, next, headers, log, p, n);
      if link.FirstChild? {
        first := first[link.n := n];
      } else {
        next := next[link.n := n];
      }
      log := log + [Link(p, n)];
    }

    method ChainOnTop(n: Node)
      requires Valid() && FreshNode(log, n) && (n.Of? || n.NullThen?) && frames.Frames?
      modifies this
      ensures Valid()
      ensures frames == old(frames).(link := NextSibling(n))
      ensures log == old(log) + [Link(NodeOf(frames.top), n)]
    {
      ghost var p := NodeOf(frames.top);
      ChildrenAppend(log, Link(p, n), Root);
      TopAdvances(frames, headers, log, n);
      Relink(p, frames.link, n);
      frames := frames.(link := NextSibling(n));
    }

    /** Without a stack the node goes to the file's list of top-level nodes. */
    method ChainInFile(n: Node)
      requires Valid() && FreshNode(log, n) && frames.NoFrames?
      modifies this
      ensures Valid()
      ensures frames == old(frames)
      ensures log == old(log) + [Link(Root, n)]
    {
      ChildrenAppend(log, Link(Root, n), Root);
      FileSlot(first, next, headers, log);
      Relink(Root, if Root !in first then FirstChild(Root) else NextSibling(lastTop.value), n);
      lastTop := Some(n);
    }

    /** chain_at_curr_stmt_stack_level */
    method Chain(n: Node)
      requires Valid() && FreshNode(log, n) && (n.Of? || n.NullThen?)
      modifies this
      ensures Valid()
      ensures StackOf(frames) == old(StackOf(frames)) && FrameNodes(frames) == old(FrameNodes(frames))
      ensures log == old(log) + [Link(Parent(StackOf(frames)), n)]
    {
      if frames.Frames? {
        ChainOnTop(n);
      } else {
        ChainInFile(n);
      }
    }

    /** push_stmt, with the link that the caller sets to skip the operands. */
    method PushStmt(s: Stmt)
      requires Valid() && Pushed(s) && HeadersRight(headers, s)
      requires Of(s.id) in Linked(log) && Of(s.id) !in FrameNodes(frames)
      requires Children(log, Of(s.id)) == [] && ClosingUntouched(log, s.id)
      modifies `frames
      ensures Valid()
      ensures StackOf(frames) == Push(FrameOf(s), old(StackOf(frames)))
      ensures FrameNodes(frames) == {Of(s.id)} + old(FrameNodes(frames))
    {
      var ending := DetermineStackEndingStmt(s);
      var link := if s.Block? then FirstChild(Of(s.id))
                  else NextSibling(Header(s.id, if s.For? then 2 else 0));
      frames := Frames(Frame(s, ending, !s.Block? && ending.None?), link, frames);
    }

    /** Links what is owed at the end of the construct on top, then pops it. */
    method PopTop()
      requires Valid() && frames.Frames?
      modifies this
      ensures Valid()
      ensures frames == old(frames).rest && log == old(log) + PopLinks(old(frames).top)
    {
      var f, link := frames.top, frames.link;
      ghost var p := NodeOf(f);
      ClosingIsNew(frames, headers, log);
      frames := frames.rest;
      var owed := ClosingNode(f);
      if owed.Some? {
        RelinkLast(p, link, owed.value);
      }
    }

    /** The last child of a construct that is no longer on the stack. */
    method RelinkLast(ghost p: Node, link: Slot, n: Node)
      requires Valid() && FreshNode(log, n) && p in Linked(log) && p != Root && p !in FrameNodes(frames)
      requires Elsewhere(n, FrameNodes(frames))
      requires link == SlotAfter(p, Kids(headers, log, p))
      modifies `first, `next, `log
      ensures Valid() && log == old(log) + [Link(p, n)]
    {
      FramesKept(frames, headers, log, p, n);
      ChildrenAppend(log, Link(p, n), Root);
      Relink(p, link, n);
    }

    /** Constructs whose end has been seen leave the stack before anything else is done. */
    method PopCompleted()
      requires Valid()
      modifies this
      ensures Valid()
      ensures Abstract() == Settle(old(Abstract()))
      ensures FrameNodes(frames) <= old(FrameNodes(frames))
      ensures KeepsAllFresh(old(log), log)
    {
      while frames.Frames? && frames.top.doPop
        invariant Valid()
        invariant Settle(Abstract()) == Settle(old(Abstract()))
        invariant FrameNodes(frames) <= old(FrameNodes(frames))
        invariant KeepsAllFresh(old(log), log)
        decreases frames
      {
        ghost var f, before := frames.top, log;
        PopTop();
        ClosingKeepsFresh(before, f);
      }
    }

    /** Notes the end of the construct on top, or moves it into a generated block. */
    method NoteEnding(e: Entry)
      requires Valid()
      modifies `frames
      ensures Valid()
      ensures Abstract() == Note(old(Abstract()), e) && FrameNodes(frames) == old(FrameNodes(frames))
    {
      if frames.Frames? && e.Enter? && frames.top.ending.Some? && frames.top.ending == SeqOf(e.s) {
        var top := frames.top.(doPop := true);
        if e.s.Generated? {
          var last := LastEntry(e.s.statements);
          if last.Some? {
            top := frames.top.(ending := last, doPop := false);
          }
        }
        TopChanges(frames, top, headers, log);
        frames := frames.(top := top);
      }
    }

    /** The construct whose node was just chained opens a level of its own. */
    method OpenLevel(s: Stmt)
      requires Valid() && Pushed(s) && HeadersRight(headers, s)
      requires Of(s.id) in Linked(log) && Of(s.id) !in FrameNodes(frames)
      requires Children(log, Of(s.id)) == [] && Untouched(log, s.id)
      modifies this
      ensures Valid()
      ensures StackOf(frames) == Push(FrameOf(s), old(StackOf(frames)))
      ensures log == old(log) + EntryLinks(s)
    {
      PushStmt(s);
      if s.If? && LacksThen(s) {
        ChainOnTop(NullThen(s.id));
      }
    }

    /** A construct without parts gets its null operand or break at once. */
    method LinkAtOnce(s: Stmt)
      requires Valid() && SeqOf(s).Some? && !s.Generated? && !Pushed(s) && HeadersRight(headers, s)
      requires Of(s.id) in Linked(log) && Of(s.id) !in FrameNodes(frames)
      requires Children(log, Of(s.id)) == [] && Untouched(log, s.id)
      modifies `first, `next, `log
      ensures Valid()
      ensures log == old(log) + EntryLinks(s)
    {
      if s.If? || (s.Clause? && s.impliedBreak) {
        FreshSlot(headers, log, s);
        var n := if s.If? then NullThen(s.id) else BreakOf(s.id);
        RelinkLast(Of(s.id), NextSibling(Header(s.id, 0)), n);
      }
    }

    /** Chains a statement's node and opens its level. */
    method EnterStatement(s: Stmt)
      requires Valid() && SeqOf(s).Some? && !s.Generated? && HeadersRight(headers, s) && FreshId(log, s.id)
      modifies this
      ensures Valid()
      ensures StackOf(frames) == Opened(old(StackOf(frames)), s)
      ensures log == old(log) + [Link(Parent(old(StackOf(frames))), Of(s.id))] + EntryLinks(s)
    {
      ReadyToOpen(frames, headers, log, s.id);
      Chain(Of(s.id));
      OpenOrLink(s);
    }

    /** What follows the chaining of its node. */
    method OpenOrLink(s: Stmt)
      requires Valid() && SeqOf(s).Some? && !s.Generated? && HeadersRight(headers, s)
      requires Of(s.id) in Linked(log) && Of(s.id) !in FrameNodes(frames)
      requires Children(log, Of(s.id)) == [] && Untouched(log, s.id)
      modifies this
      ensures Valid()
      ensures StackOf(frames) == Opened(old(StackOf(frames)), s)
      ensures log == old(log) + EntryLinks(s)
    {
      if Pushed(s) {
        OpenLevel(s);
      } else {
        LinkAtOnce(s);
      }
    }

    /** The entry's own effect, once completed constructs are gone and the ending is noted. */
    method ActOn(e: Entry)
      requires Valid() && Unprocessed(headers, log, e)
      modifies this
      ensures Valid()
      ensures Abstract() == Act(old(Abstract()), e)
    {
      match e {
        case Enter(s) =>
          if !s.Generated? {
            ActOpens(Abstract(), s);
            EnterStatement(s);
          }
        case End(_) =>
          if frames.Frames? {
            frames := frames.rest;
          }
        case Init(_) =>
      }
    }

    /** process_ast_of_entry on one source sequence entry. */
    method ProcessEntry(e: Entry)
      requires Valid() && Unprocessed(headers, log, e)
      modifies this
      ensures Valid()
      ensures Abstract() == Step(old(Abstract()), e)
      ensures KeepsFresh(old(log), log, e)
    {
      PopCompleted();
      NoteEnding(e);
      ghost var before := Abstract();
      ActOn(e);
      ActKeepsFresh(before, e);
      FreshChain(old(log), before.log, log, e);
    }

    /** The whole source sequence list. */
    method Build(es: seq<Entry>)
      requires Valid()
      requires forall i :: 0 <= i < |es| ==> Unprocessed(headers, log, es[i])
      requires EntriesDistinct(es)
      modifies this
      ensures Valid()
      ensures Abstract() == Run(es, old(Abstract()))
    {
      var i := 0;
      while i < |es|
        invariant 0 <= i <= |es|
        invariant Valid()
        invariant Run(es, old(Abstract())) == Run(es[i..], Abstract())
        invariant forall j :: i <= j < |es| ==> Unprocessed(headers, log, es[j])
      {
        ProcessEntry(es[i]);
        assert es[i..][1..] == es[i + 1..];
        i := i + 1;
      }
    }
  }
}
