/**
 The condition for right nesting in terms of the program alone: every unbracketed construct ends,
 through generated blocks without entries, in a statement that has one
 (aset_CCcc/src/SET_ast.c, set_stack_ending_stmt and its callers).
 */
module OrdinaryPrograms {
  import opened Basics
  import opened Statements
  import opened StatementStack
  import opened Nesting

  /** A statement that puts no entry into the sequence list */
  predicate Blank(s: Stmt) {
    match s
    case Hidden => true
    case Generated(None, ss) => AllBlank(ss)
    case _ => false
  }

  predicate AllBlank(ss: Stmts) {
    match ss case Nil => true case Cons(s, rest) => Blank(s) && AllBlank(rest)
  }

  predicate HasOwnEntry(s: Stmt) {
    match s
    case Hidden => false
    case Generated(e, _) => e.Some?
    case _ => true
  }

  /**
   The statement's end can be told by an entry: its own, or, for a generated block without one, that
   of its last statement, or of the last of its statements that shows in the sequence list.
   */
  predicate Ends(s: Stmt) {
    match s
    case Hidden => false
    case Generated(None, ss) => ss.Cons? && (Ends(Last(ss)) || (!AllBlank(ss) && EndsList(ss)))
    case Generated(Some(_), ss) => EndsList(ss)
    case _ => true
  }

  /** The last statement of the list that puts entries into the sequence list has one of its own. */
  predicate EndsList(ss: Stmts) {
    match ss
    case Nil => true
    case Cons(s, rest) => if AllBlank(rest) then Blank(s) || (HasOwnEntry(s) && Ends(s)) else EndsList(rest)
  }

  predicate EndsOrBlank(part: Option<Stmt>) {
    match part case None => true case Some(s) => Ends(s) || Blank(s)
  }

  predicate BlankPart(part: Option<Stmt>) {
    match part case None => true case Some(s) => Blank(s)
  }

  /** Every construct in the statement can be told to have ended. */
  predicate Ordinary(s: Stmt) {
    match s
    case Plain(_) => true
    case Hidden => true
    case If(_, t, None, _) => EndsOrBlank(t) && (t.Some? ==> Ordinary(t.value))
    case If(_, t, Some(e), _) =>
      && (Ends(e) || (Blank(e) && BlankPart(t)))
      && (t.Some? ==> Ordinary(t.value)) && Ordinary(e)
    case Loop(_, _, body) => EndsOrBlank(body) && (body.Some? ==> Ordinary(body.value))
    case For(_, _, body) => EndsOrBlank(body) && (body.Some? ==> Ordinary(body.value))
    case Clause(_, ss, _) => EndsList(ss) && AllOrdinary(ss)
    case Block(_, ss) => AllOrdinary(ss)
    case Generated(_, ss) => AllOrdinary(ss)
  }

  predicate AllOrdinary(ss: Stmts) {
    match ss case Nil => true case Cons(s, rest) => Ordinary(s) && AllOrdinary(rest)
  }

  // ---------------------------------------------------------------- blank statements

  lemma {:induction false} BlankIsSilent(s: Stmt)
    requires Blank(s)
    ensures Flatten(s) == [] && SeqOf(s).None? && EndingOf(s).None?
    decreases s
  {
    if s.Generated? {
      AllBlankIsSilent(s.statements);
      if s.statements.Cons? {
        LastIsBlank(s.statements);
        BlankIsSilent(Last(s.statements));
      }
    }
  }

  lemma {:induction false} AllBlankIsSilent(ss: Stmts)
    requires AllBlank(ss)
    ensures FlattenL(ss) == [] && LastSeq(ss).None?
    decreases ss
  {
    if ss.Cons? {
      BlankIsSilent(ss.head);
      AllBlankIsSilent(ss.tail);
    }
  }

  lemma {:induction false} LastIsBlank(ss: Stmts)
    requires ss.Cons? && AllBlank(ss)
    ensures Blank(Last(ss))
  {
    if ss.tail.Cons? { LastIsBlank(ss.tail); }
  }

  lemma {:induction false} LoudIfNotBlank(s: Stmt)
    requires !Blank(s)
    ensures Flatten(s) != []
    decreases s
  {
    if s.Generated? && s.entry.None? { ListLoudIfNotBlank(s.statements); }
  }

  lemma {:induction false} ListLoudIfNotBlank(ss: Stmts)
    requires !AllBlank(ss)
    ensures FlattenL(ss) != []
    decreases ss
  {
    if Blank(ss.head) { ListLoudIfNotBlank(ss.tail); } else { LoudIfNotBlank(ss.head); }
  }

  lemma {:induction false} EndsIsNotBlank(s: Stmt)
    requires Ends(s)
    ensures !Blank(s)
    decreases s
  {
    if s.Generated? && s.entry.None? && AllBlank(s.statements) {
      LastIsBlank(s.statements);
      if Ends(Last(s.statements)) { EndsIsNotBlank(Last(s.statements)); }
    }
  }

  // ---------------------------------------------------------------- the recorded ending is right

  lemma {:induction false} LastDecides(ss: Stmts, k: nat)
    requires ss.Cons? && EndsWith(Last(ss), k) && !Blank(Last(ss))
    ensures ListEndsWith(ss, k)
    decreases ss
  {
    if ss.tail.Cons? {
      if AllBlank(ss.tail) { LastIsBlank(ss.tail); }
      ListLoudIfNotBlank(ss.tail);
      LastDecides(ss.tail, k);
    }
  }

  lemma {:induction false} LastHasLastSeq(ss: Stmts)
    requires ss.Cons? && SeqOf(Last(ss)).Some?
    ensures LastSeq(ss) == SeqOf(Last(ss))
    decreases ss
  {
    if ss.tail.Cons? { LastHasLastSeq(ss.tail); }
  }

  lemma {:induction false} EndingIsRight(s: Stmt)
    requires Ends(s)
    ensures EndingOf(s).Some? && EndsWith(s, EndingOf(s).value)
    decreases s, 0
  {
    if s.Generated? && s.entry.Some? {
      ListEndingIsRight(s.statements);
    } else if s.Generated? && Ends(Last(s.statements)) {
      var inner := Last(s.statements);
      EndingIsRight(inner);
      EndsIsNotBlank(inner);
      if SeqOf(inner).Some? { LastHasLastSeq(s.statements); }
      LastDecides(s.statements, EndingOf(s).value);
    } else if s.Generated? {
      ListEndingIsRight(s.statements);
      LastEndsOrBlank(s.statements);
      if Blank(Last(s.statements)) { BlankIsSilent(Last(s.statements)); }
    }
  }

  /** The last statement of such a list is blank or has an entry that tells its end. */
  lemma {:induction false} LastEndsOrBlank(ss: Stmts)
    requires ss.Cons? && EndsList(ss)
    ensures Blank(Last(ss)) || (HasOwnEntry(Last(ss)) && Ends(Last(ss)))
    decreases ss
  {
    if ss.tail.Cons? {
      if AllBlank(ss.tail) { LastIsBlank(ss.tail); } else { LastEndsOrBlank(ss.tail); }
    }
  }

  lemma {:induction false} ListEndingIsRight(ss: Stmts)
    requires EndsList(ss)
    ensures EndRight(LastSeq(ss), ss)
    ensures !AllBlank(ss) ==> LastSeq(ss).Some?
    decreases ss, 1
  {
    if AllBlank(ss) {
      AllBlankIsSilent(ss);
    } else if AllBlank(ss.tail) {
      AllBlankIsSilent(ss.tail);
      EndingIsRight(ss.head);
    } else {
      ListEndingIsRight(ss.tail);
      ListLoudIfNotBlank(ss.tail);
    }
  }

  /** The ending recorded for a construct with one part, or two */
  lemma PartEndsRight(s: Stmt, part: Option<Stmt>)
    requires EndsOrBlank(part) && (part.Some? ==> Parts(s) == Cons(part.value, Nil)) && (part.None? ==> Parts(s) == Nil)
    requires Ending(s) == if part.Some? then EndingOf(part.value) else None
    ensures EndRight(Ending(s), Parts(s))
  {
    if part.Some? {
      assert FlattenL(Nil) == [];
      if Ends(part.value) { EndingIsRight(part.value); } else { BlankIsSilent(part.value); }
    }
  }

  lemma ElseEndsRight(s: Stmt)
    requires s.If? && s.els.Some? && (Ends(s.els.value) || (Blank(s.els.value) && BlankPart(s.thn)))
    ensures EndRight(Ending(s), Parts(s))
  {
    var e := s.els.value;
    assert FlattenL(Nil) == [] && FlattenL(Cons(e, Nil)) == Flatten(e);
    if Ends(e) {
      EndingIsRight(e);
      EndsIsNotBlank(e);
      LoudIfNotBlank(e);
    } else {
      BlankIsSilent(e);
      if s.thn.Some? { BlankIsSilent(s.thn.value); }
    }
  }

  lemma OnePart(part: Option<Stmt>)
    ensures part.Some? ==> (WellEndedL(Cons(part.value, Nil)) <==> WellEnded(part.value))
    ensures WellEndedL(Nil)
  {
  }

  /** Ordinary statements get the right ending at every construct. */
  lemma {:induction false} OrdinaryIsWellEnded(s: Stmt)
    requires Ordinary(s)
    ensures WellEnded(s)
    decreases s
  {
    PartsSize(s);
    match s {
      case Plain(_) =>
      case Hidden =>
      case If(_, t, e, _) =>
        if e.None? { PartEndsRight(s, t); } else { ElseEndsRight(s); OrdinaryIsWellEnded(e.value); }
        if t.Some? { OrdinaryIsWellEnded(t.value); }
        OnePart(e);
        OnePart(t);
      case Loop(_, _, body) =>
        PartEndsRight(s, body);
        if body.Some? { OrdinaryIsWellEnded(body.value); }
        OnePart(body);
      case For(_, _, body) =>
        PartEndsRight(s, body);
        if body.Some? { OrdinaryIsWellEnded(body.value); }
        OnePart(body);
      case Clause(_, ss, _) =>
        ListEndingIsRight(ss);
        AllOrdinaryAreWellEnded(ss);
      case Block(_, ss) => AllOrdinaryAreWellEnded(ss);
      case Generated(_, ss) => AllOrdinaryAreWellEnded(ss);
    }
  }

  lemma {:induction false} AllOrdinaryAreWellEnded(ss: Stmts)
    requires AllOrdinary(ss)
    ensures WellEndedL(ss)
    decreases ss
  {
    if ss.Cons? {
      OrdinaryIsWellEnded(ss.head);
      AllOrdinaryAreWellEnded(ss.tail);
    }
  }

  // ---------------------------------------------------------------- and no other statements do

  lemma {:induction false} LastWithin(ss: Stmts, k: nat)
    requires ListEndsWith(ss, k) && !Blank(Last(ss))
    ensures EndsWith(Last(ss), k)
    decreases ss
  {
    if ss.tail.Cons? {
      if AllBlank(ss.tail) { LastIsBlank(ss.tail); }
      ListLoudIfNotBlank(ss.tail);
      LastWithin(ss.tail, k);
    }
  }

  lemma SilentIsBlank(ss: Stmts)
    requires Silent(ss)
    ensures AllBlank(ss)
  {
    if !AllBlank(ss) { ListLoudIfNotBlank(ss); }
  }

  lemma {:induction false} AllBlankEnds(ss: Stmts)
    requires AllBlank(ss)
    ensures EndsList(ss)
  {
    if ss.Cons? { AllBlankEnds(ss.tail); }
  }

  /** If the ending found for a statement is right, the statement's end can be told. */
  lemma {:induction false} RightEndingEnds(s: Stmt, k: nat)
    requires Distinct(s) && EndingOf(s) == Some(k) && EndsWith(s, k)
    ensures Ends(s)
    decreases s, 0
  {
    if s.Generated? {
      PartsSize(s);
      var ss := s.statements;
      if s.entry.Some? {
        RightListEnds(ss);
      } else {
        var inner := Last(ss);
        if SeqOf(inner).None? && EndingOf(inner).Some? {
          if Blank(inner) { BlankIsSilent(inner); }
          LastWithin(ss, k);
          LastIsDistinct(ss);
          RightEndingEnds(inner, k);
        } else {
          RightListEnds(ss);
          if AllBlank(ss) { AllBlankIsSilent(ss); }
        }
      }
    }
  }

  lemma {:induction false} LastIsDistinct(ss: Stmts)
    requires ss.Cons? && DistinctL(ss)
    ensures Distinct(Last(ss))
  {
    if ss.tail.Cons? { LastIsDistinct(ss.tail); }
  }

  lemma {:induction false} RightListEnds(ss: Stmts)
    requires DistinctL(ss) && EndRight(LastSeq(ss), ss)
    ensures EndsList(ss)
    decreases ss, 1
  {
    if LastSeq(ss).None? {
      SilentIsBlank(ss);
      AllBlankEnds(ss);
    } else {
      var k := LastSeq(ss).value;
      if Silent(ss.tail) {
        SilentIsBlank(ss.tail);
        AllBlankIsSilent(ss.tail);
        RightEndingEnds(ss.head, k);
      } else {
        if AllBlank(ss.tail) { AllBlankIsSilent(ss.tail); }
        ListEndIsInside(ss.tail, k);
        if LastSeq(ss.tail).None? { assert false; }
        RightListEnds(ss.tail);
      }
    }
  }

  lemma RightPartEnds(s: Stmt, part: Option<Stmt>)
    requires (part.Some? ==> Parts(s) == Cons(part.value, Nil) && Distinct(part.value))
    requires Ending(s) == (if part.Some? then EndingOf(part.value) else None) && EndRight(Ending(s), Parts(s))
    ensures EndsOrBlank(part)
  {
    if part.Some? {
      assert FlattenL(Nil) == [] && FlattenL(Cons(part.value, Nil)) == Flatten(part.value);
      if Ending(s).Some? {
        RightEndingEnds(part.value, Ending(s).value);
      } else if !Blank(part.value) {
        LoudIfNotBlank(part.value);
      }
    }
  }

  lemma RightElseEnds(s: Stmt)
    requires s.If? && s.els.Some? && Distinct(s) && EndRight(Ending(s), Parts(s))
    ensures Ends(s.els.value) || (Blank(s.els.value) && BlankPart(s.thn))
  {
    var e := s.els.value;
    PartsSize(s);
    assert FlattenL(Nil) == [] && FlattenL(Cons(e, Nil)) == Flatten(e);
    assert DistinctL(Cons(e, Nil));
    if Ending(s).Some? {
      if Blank(e) { BlankIsSilent(e); }
      LoudIfNotBlank(e);
      assert ListEndsWith(Cons(e, Nil), Ending(s).value);
      RightEndingEnds(e, Ending(s).value);
    } else {
      SilentIsBlank(Parts(s));
    }
  }

  function Branches(t: Option<Stmt>, e: Option<Stmt>): Stmts {
    var rest := if e.Some? then Cons(e.value, Nil) else Nil;
    if t.Some? then Cons(t.value, rest) else rest
  }

  lemma BranchesApart(t: Option<Stmt>, e: Option<Stmt>)
    requires DistinctL(Branches(t, e)) && WellEndedL(Branches(t, e))
    ensures t.Some? ==> Distinct(t.value) && WellEnded(t.value)
    ensures e.Some? ==> Distinct(e.value) && WellEnded(e.value)
  {
    if e.Some? { assert DistinctL(Cons(e.value, Nil)) && WellEndedL(Cons(e.value, Nil)); }
  }

  /** Only ordinary statements get the right ending at every construct. */
  lemma {:induction false} WellEndedIsOrdinary(s: Stmt)
    requires Distinct(s) && WellEnded(s)
    ensures Ordinary(s)
    decreases s
  {
    PartsSize(s);
    match s {
      case Plain(_) =>
      case Hidden =>
      case If(_, t, e, _) =>
        assert DistinctL(Parts(s)) && WellEndedL(Parts(s));
        BranchesApart(t, e);
        if e.None? { RightPartEnds(s, t); } else { RightElseEnds(s); WellEndedIsOrdinary(e.value); }
        if t.Some? { WellEndedIsOrdinary(t.value); }
      case Loop(_, _, body) =>
        RightPartEnds(s, body);
        if body.Some? { WellEndedIsOrdinary(body.value); }
      case For(_, _, body) =>
        RightPartEnds(s, body);
        if body.Some? { WellEndedIsOrdinary(body.value); }
      case Clause(_, ss, _) =>
        RightListEnds(ss);
        AllWellEndedAreOrdinary(ss);
      case Block(_, ss) => AllWellEndedAreOrdinary(ss);
      case Generated(_, ss) => AllWellEndedAreOrdinary(ss);
    }
  }

  lemma {:induction false} AllWellEndedAreOrdinary(ss: Stmts)
    requires DistinctL(ss) && WellEndedL(ss)
    ensures AllOrdinary(ss)
    decreases ss
  {
    if ss.Cons? {
      WellEndedIsOrdinary(ss.head);
      AllWellEndedAreOrdinary(ss.tail);
    }
  }

  // ---------------------------------------------------------------- the results in these terms

  /** Every entry is processed at its true level exactly if every construct can be told to have ended. */
  lemma {:induction false} LevelsRightIffOrdinary(prog: Stmts)
    requires DistinctL(prog)
    ensures Levels(FlattenL(prog), State(Empty, [])) == TrueLevelsL(prog, Top) <==> AllOrdinary(prog)
  {
    LevelsRightIffWellEnded(prog);
    if AllOrdinary(prog) { AllOrdinaryAreWellEnded(prog); }
    if WellEndedL(prog) { AllWellEndedAreOrdinary(prog); }
  }

  /** And then the stack machine makes exactly the links of the program's forest. */
  lemma {:induction false} OrdinaryRebuilds(prog: Stmts)
    requires DistinctL(prog) && AllOrdinary(prog)
    ensures Settle(Run(FlattenL(prog), State(Empty, []))) == State(Empty, Links(Root, ShapeL(prog)))
  {
    AllOrdinaryAreWellEnded(prog);
    Rebuilds(prog);
  }
}
