/**
 Statements of the intermediate language, the source sequence list they are flattened to,
 and the statement stack that rebuilds their nesting from that list
 (aset_CCcc/src/SET_ast.c and the predicates of SET_il.c).
 */
module Statements {
  import opened Basics

  /** Statements chained by their next pointer. */
  datatype Stmts = Nil | Cons(head: Stmt, tail: Stmts)

  datatype LoopKind = While | EndTestWhile | Switch

  /**
   A statement.  Its id stands for the address of its source sequence entry.
   Plain is any statement without nested statements; Hidden is one the compiler
   generated without a sequence entry (a fall-through goto).  Generated is a block
   without a final position: it may lack a sequence entry, never has an end marker,
   and gets no node of its own.
   */
  datatype Stmt =
    | Plain(id: nat)
    | Hidden
    | If(id: nat, thn: Option<Stmt>, els: Option<Stmt>, emptyElse: bool)
    | Loop(kind: LoopKind, id: nat, body: Option<Stmt>)
    | For(id: nat, init: Option<nat>, body: Option<Stmt>)
    | Clause(id: nat, statements: Stmts, impliedBreak: bool)
    | Block(id: nat, statements: Stmts)
    | Generated(entry: Option<nat>, statements: Stmts)

  /** The pointer source_sequence_entry. */
  function SeqOf(s: Stmt): Option<nat> {
    match s
    case Hidden => None
    case Generated(e, _) => e
    case _ => Some(s.id)
  }

  /** block_is_generated together with an empty statement list. */
  predicate IsEmptyGenerated(o: Option<Stmt>) {
    o.Some? && o.value.Generated? && o.value.statements.Nil?
  }

  /** Nothing will be linked in the "then" spot, so a null operand goes there. */
  predicate LacksThen(s: Stmt)
    requires s.If?
  {
    s.thn.None? || IsEmptyGenerated(s.thn)
  }

  /** "else;", as the flag or the shape of the C++ intermediate language shows it. */
  predicate HasEmptyElse(s: Stmt)
    requires s.If?
  {
    s.emptyElse || IsEmptyGenerated(s.els)
  }

  /** The nested statements of a statement, in source order. */
  function Parts(s: Stmt): (r: Stmts) {
    match s
    case If(_, t, e, _) =>
      var rest := if e.Some? then Cons(e.value, Nil) else Nil;
      if t.Some? then Cons(t.value, rest) else rest
    case Loop(_, _, b) => if b.Some? then Cons(b.value, Nil) else Nil
    case For(_, _, b) => if b.Some? then Cons(b.value, Nil) else Nil
    case Clause(_, ss, _) => ss
    case Block(_, ss) => ss
    case Generated(_, ss) => ss
    case Plain(_) => Nil
    case Hidden => Nil
  }

  ghost function Size(s: Stmt): nat {
    1 + match s
        case If(_, t, e, _) => (if t.Some? then 1 + Size(t.value) else 0) + (if e.Some? then 1 + Size(e.value) else 0)
        case Loop(_, _, b) => if b.Some? then 1 + Size(b.value) else 0
        case For(_, _, b) => if b.Some? then 1 + Size(b.value) else 0
        case Clause(_, ss, _) => SizeL(ss)
        case Block(_, ss) => SizeL(ss)
        case Generated(_, ss) => SizeL(ss)
        case Plain(_) => 0
        case Hidden => 0
  }

  ghost function SizeL(ss: Stmts): nat {
    match ss case Nil => 0 case Cons(s, rest) => 1 + Size(s) + SizeL(rest)
  }

  lemma PartsSize(s: Stmt)
    ensures SizeL(Parts(s)) < Size(s)
  {
    if s.If? && s.thn.Some? && s.els.Some? {
      assert SizeL(Cons(s.els.value, Nil)) == 1 + Size(s.els.value);
    }
  }

  // ---------------------------------------------------------------- the source sequence list

  /** A source sequence entry: a statement, the initialiser of a for, or the end of a real block. */
  datatype Entry = Enter(s: Stmt) | Init(id: nat) | End(id: nat)

  ghost function Flatten(s: Stmt): seq<Entry>
    decreases Size(s)
  {
    PartsSize(s);
    (if SeqOf(s).Some? then [Enter(s)] else [])
    + (if s.For? && s.init.Some? then [Init(s.init.value)] else [])
    + FlattenL(Parts(s))
    + (if s.Block? then [End(s.id)] else [])
  }

  ghost function FlattenL(ss: Stmts): seq<Entry>
    decreases SizeL(ss)
  {
    match ss case Nil => [] case Cons(s, rest) => Flatten(s) + FlattenL(rest)
  }

  ghost function Ids(s: Stmt): set<nat>
    decreases Size(s)
  {
    PartsSize(s);
    (if SeqOf(s).Some? then {SeqOf(s).value} else {}) + IdsL(Parts(s))
  }

  ghost function IdsL(ss: Stmts): set<nat>
    decreases SizeL(ss)
  {
    match ss case Nil => {} case Cons(s, rest) => Ids(s) + IdsL(rest)
  }

  /** Different statements have different sequence entries. */
  ghost predicate Distinct(s: Stmt)
    decreases Size(s)
  {
    PartsSize(s);
    (SeqOf(s).Some? ==> SeqOf(s).value !in IdsL(Parts(s))) && DistinctL(Parts(s))
  }

  ghost predicate DistinctL(ss: Stmts)
    decreases SizeL(ss)
  {
    match ss case Nil => true case Cons(s, rest) => Distinct(s) && DistinctL(rest) && Ids(s) !! IdsL(rest)
  }

  // ---------------------------------------------------------------- where a construct ends

  /** The last statement of a list that has a sequence entry. */
  function LastSeq(ss: Stmts): Option<nat> {
    match ss
    case Nil => None
    case Cons(s, rest) => if LastSeq(rest).Some? then LastSeq(rest) else SeqOf(s)
  }

  function Last(ss: Stmts): (r: Stmt)
    requires ss.Cons?
    ensures r < ss
  {
    if ss.tail.Nil? then ss.head else Last(ss.tail)
  }

  /** What set_stack_ending_stmt finds: it looks through blocks without a sequence entry. */
  function EndingOf(s: Stmt): Option<nat>
    decreases s
  {
    if SeqOf(s).Some? then SeqOf(s)
    else if s.Generated? && s.statements.Cons? then
      var inner := Last(s.statements);
      var deeper := if SeqOf(inner).None? then EndingOf(inner) else None;
      if deeper.Some? then deeper else LastSeq(s.statements)
    else None
  }

  /** The loop nest of set_stack_ending_stmt. */
  method SetStackEndingStmt(s0: Stmt) returns (ending: Option<nat>)
    ensures ending == EndingOf(s0)
  {
    var sp := s0;
    ending := SeqOf(sp);
    if ending.None? {
      while sp.Generated? && SeqOf(sp).None? && sp.statements.Cons?
        invariant SeqOf(sp).None? || ending == EndingOf(s0)
        invariant SeqOf(sp).None? ==>
                    EndingOf(s0) == if EndingOf(sp).Some? then EndingOf(sp) else ending
        decreases sp
      {
        var list := sp.statements;
        ghost var outer := ending;
        while true
          invariant list.Cons?
          invariant Last(list) == Last(sp.statements)
          invariant (if LastSeq(list).Some? then LastSeq(list) else ending)
                 == (if LastSeq(sp.statements).Some? then LastSeq(sp.statements) else outer)
          invariant list < sp
          decreases list
        {
          if SeqOf(list.head).Some? {
            ending := SeqOf(list.head);
          }
          if list.tail.Nil? { break; }
          list := list.tail;
        }
        assert Last(list) == list.head;
        sp := list.head;
      }
    }
  }

  /** The ending_stmt a pushed construct gets (determine_stack_ending_stmt; clauses set their own). */
  function Ending(s: Stmt): Option<nat> {
    match s
    case If(_, t, e, _) => if e.Some? then EndingOf(e.value) else if t.Some? then EndingOf(t.value) else None
    case Loop(_, _, b) => if b.Some? then EndingOf(b.value) else None
    case For(_, _, b) => if b.Some? then EndingOf(b.value) else None
    case Clause(_, ss, _) => LastSeq(ss)
    case _ => None
  }

  /** Does the construct stay on the stack once its own entry has been processed? */
  predicate Pushed(s: Stmt) {
    match s
    case If(_, t, e, _) => t.Some? || e.Some?
    case Loop(_, _, b) => b.Some?
    case For(_, _, b) => b.Some?
    case Clause(_, ss, _) => LastSeq(ss).Some?
    case Block(_, _) => true
    case _ => false
  }
}
