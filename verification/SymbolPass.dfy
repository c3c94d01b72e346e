/**
 The pass that writes the symbols of the entities an AST refers to
 (write_symbol_for_ast_node, aset_CCcc/src/SET_dump_if.c), and when it covers the printer.
 Entries are identified by number.
 */
module SymbolPass {
  import opened Basics
  import opened AstPrinter

  function Own(n: Ast): seq<nat>
    requires n.Node?
  {
    if n.text.entry.Some? then [n.text.entry.value] else []
  }

  /** The entries the pass writes symbols for. */
  function Visited(n: Ast): seq<nat>
    decreases n, 1
  {
    if n.Null? then [] else VisitedHere(n) + Visited(n.next)
  }

  function VisitedHere(n: Ast): seq<nat>
    requires n.Node?
    decreases n, 0
  {
    if n.suppressSubtree then [] else (if n.suppressNode then [] else Own(n)) + Visited(n.first)
  }

  /** The entries whose symbol numbers the tokens give, in order */
  function EntriesOf(ts: seq<Token>): seq<nat> {
    if ts == [] then []
    else
      var last := ts[|ts| - 1];
      EntriesOf(ts[..|ts| - 1]) + (if last.Text? && last.words.entry.Some? then [last.words.entry.value] else [])
  }

  lemma {:induction false} EntriesAppend(a: seq<Token>, b: seq<Token>)
    ensures EntriesOf(a + b) == EntriesOf(a) + EntriesOf(b)
  {
    if b == [] {
      assert a + b == a;
    } else {
      var init, last := b[..|b| - 1], b[|b| - 1];
      assert (a + b)[..|a + b| - 1] == a + init && (a + b)[|a + b| - 1] == last;
      EntriesAppend(a, init);
      Regroup(EntriesOf(a), EntriesOf(init), EntriesOf([last]));
      assert [last][..0] == [] && EntriesOf([]) == [];
    }
  }

  lemma {:induction false} NoEntries(ts: seq<Token>)
    requires forall i :: 0 <= i < |ts| ==> !ts[i].Text?
    ensures EntriesOf(ts) == []
  {
    if ts != [] { NoEntries(ts[..|ts| - 1]); }
  }

  lemma TextEntries(n: Ast, before: seq<Token>, after: seq<Token>)
    requires n.Node? && (forall i :: 0 <= i < |before| ==> !before[i].Text?)
    requires forall i :: 0 <= i < |after| ==> !after[i].Text?
    ensures EntriesOf(before + ([Text(n.text)] + after)) == Own(n)
  {
    NoEntries(before);
    NoEntries(after);
    EntriesAppend(before, [Text(n.text)] + after);
    EntriesAppend([Text(n.text)], after);
    assert [Text(n.text)][..0] == [] && EntriesOf([]) == [];
  }

  lemma LeafEntries(n: Ast, depth: nat, indent: bool)
    requires n.Node? && n.isLeaf
    ensures EntriesOf(Item(n, depth, indent)) == Own(n)
  {
    assert Item(n, depth, indent) == Indent(depth, indent) + ([Text(n.text)] + [Pos(n.pos), Eol]);
    TextEntries(n, Indent(depth, indent), [Pos(n.pos), Eol]);
  }

  lemma InnerEntries(n: Ast, depth: nat, indent: bool)
    requires n.Node? && !n.isLeaf && !n.suppressSubtree && !n.suppressNode
    ensures EntriesOf(Item(n, depth, indent)) == Own(n) + EntriesOf(Kids(n.first, depth, indent))
  {
    var head, kids := Indent(depth, indent) + Head(n), Kids(n.first, depth, indent);
    assert head == (Indent(depth, indent) + [Name(n.name)]) + ([Text(n.text)] + [Pos(n.pos), LBrace]);
    TextEntries(n, Indent(depth, indent) + [Name(n.name)], [Pos(n.pos), LBrace]);
    EntriesAppend(head, kids);
    EntriesAppend(head + kids, [RBrace, Eol]);
    NoEntries([RBrace, Eol]);
  }

  lemma KidsEntries(first: Ast, depth: nat, indent: bool)
    ensures EntriesOf(Kids(first, depth, indent))
         == if first.Null? then [] else EntriesOf(Dump(first, depth + 1, indent))
  {
    if first.Node? {
      var dump := Dump(first, depth + 1, indent);
      EntriesAppend([Eol], dump);
      EntriesAppend([Eol] + dump, Indent(depth, indent));
      NoEntries([Eol]);
      NoEntries(Indent(depth, indent));
    }
  }

  /** The entries of the nodes that get a line, read off the tree. */
  function Printed(n: Ast): seq<nat> {
    if n.Null? then []
    else
      (if n.isLeaf then Own(n)
       else if n.suppressSubtree then []
       else (if n.suppressNode then [] else Own(n)) + Printed(n.first))
      + Printed(n.next)
  }

  /** They are those whose symbol numbers the printer writes. */
  lemma {:induction false} PrintedIsDumped(n: Ast, depth: nat, indent: bool)
    ensures EntriesOf(Dump(n, depth, indent)) == Printed(n)
    decreases n
  {
    if n.Node? {
      PrintedIsDumped(n.next, depth, indent);
      EntriesAppend(Item(n, depth, indent), Dump(n.next, depth, indent));
      if n.isLeaf {
        LeafEntries(n, depth, indent);
      } else if n.suppressSubtree {
      } else if n.suppressNode {
        PrintedIsDumped(n.first, depth, indent);
      } else {
        InnerEntries(n, depth, indent);
        KidsEntries(n.first, depth, indent);
        PrintedIsDumped(n.first, depth + 1, indent);
      }
    }
  }

  /** The loop over siblings, with its recursion over children. */
  method WriteSymbols(astp0: Ast) returns (written: seq<nat>)
    ensures written == Visited(astp0)
    decreases astp0, 1
  {
    var astp := astp0;
    written := [];
    while astp.Node?
      invariant Visited(astp0) == written + Visited(astp)
      invariant astp == astp0 || astp < astp0
      decreases astp
    {
      var here := WriteSymbolsHere(astp);
      written := written + here;
      astp := astp.next;
    }
  }

  method WriteSymbolsHere(astp: Ast) returns (written: seq<nat>)
    requires astp.Node?
    ensures written == VisitedHere(astp)
    decreases astp, 0
  {
    written := [];
    if !astp.suppressSubtree {
      if !astp.suppressNode {
        if astp.text.entry.Some? { written := [astp.text.entry.value]; }
      }
      if astp.first.Node? {
        var below := WriteSymbols(astp.first);
        written := written + below;
      }
    }
  }

  /** A leaf that the printer prints and the pass treats the same way. */
  predicate PlainLeaf(n: Ast)
    requires n.Node?
  {
    && (n.suppressSubtree || n.suppressNode ==> n.text.entry.None?)
    && (!n.suppressSubtree ==> Visited(n.first) == [])
  }

  predicate LeavesPlain(n: Ast) {
    n.Node? ==>
      && LeavesPlain(n.next)
      && (if n.isLeaf then PlainLeaf(n) else n.suppressSubtree || LeavesPlain(n.first))
  }

  /** Every entry in the tree. */
  ghost function Entries(n: Ast): set<nat> {
    if n.Null? then {} else (set e | e in Own(n)) + Entries(n.first) + Entries(n.next)
  }

  /** Different nodes refer to different entries. */
  ghost predicate EntriesDiffer(n: Ast) {
    n.Node? ==>
      && (n.text.entry.Some? ==> n.text.entry.value !in Entries(n.first) && n.text.entry.value !in Entries(n.next))
      && Entries(n.first) !! Entries(n.next)
      && EntriesDiffer(n.first) && EntriesDiffer(n.next)
  }

  lemma {:induction false} CoversIfPlain(n: Ast)
    requires LeavesPlain(n)
    ensures Visited(n) == Printed(n)
  {
    if n.Node? {
      CoversIfPlain(n.next);
      if !n.isLeaf && !n.suppressSubtree { CoversIfPlain(n.first); }
    }
  }

  lemma {:induction false} VisitedInside(n: Ast)
    ensures forall e :: e in Visited(n) ==> e in Entries(n)
    ensures forall e :: e in Printed(n) ==> e in Entries(n)
  {
    if n.Node? {
      VisitedInside(n.first);
      VisitedInside(n.next);
      forall e | e in Own(n) ensures e in Entries(n) {}
      forall e | e in VisitedHere(n) ensures e in Entries(n) {}
      assert Visited(n) == VisitedHere(n) + Visited(n.next);
    }
  }

  /** What the pass visits below a leaf, the printer does not print. */
  lemma LeafBelow(n: Ast)
    requires EntriesDiffer(n) && n.Node?
    ensures n.isLeaf && !n.suppressSubtree && Visited(n.first) != [] ==> exists e :: e in Visited(n) && e !in Printed(n)
  {
    VisitedInside(n.first);
    VisitedInside(n.next);
    if n.isLeaf && !n.suppressSubtree && Visited(n.first) != [] {
      var e := Visited(n.first)[0];
      assert e in Visited(n.first) && e in VisitedHere(n);
      assert e in Visited(n) && e !in Own(n) && e !in Printed(n.next);
    }
  }

  /** With entries told apart, equal sets of entries already force every leaf to be plain. */
  lemma {:induction false} PlainIfSameEntries(n: Ast)
    requires EntriesDiffer(n)
    requires forall e :: e in Visited(n) <==> e in Printed(n)
    ensures LeavesPlain(n)
  {
    if n.Node? {
      VisitedInside(n.first);
      VisitedInside(n.next);
      LeafBelow(n);
      forall e | e in Entries(n.next) ensures e in Visited(n.next) <==> e in Printed(n.next) {
        assert e in Visited(n) <==> e in Visited(n.next);
        assert e in Printed(n) <==> e in Printed(n.next);
      }
      PlainIfSameEntries(n.next);
      if n.isLeaf {
        if n.text.entry.Some? { assert n.text.entry.value in Printed(n); }
      } else if !n.suppressSubtree {
        forall e | e in Entries(n.first) ensures e in Visited(n.first) <==> e in Printed(n.first) {
          assert e in Visited(n) <==> e in Visited(n.first);
          assert e in Printed(n) <==> e in Printed(n.first);
        }
        PlainIfSameEntries(n.first);
      }
    }
  }

  /** The pass visits exactly what the dump refers to, in the same order, exactly when all leaves are plain. */
  lemma CoversIff(n: Ast, depth: nat, indent: bool)
    requires EntriesDiffer(n)
    ensures Visited(n) == EntriesOf(Dump(n, depth, indent)) <==> LeavesPlain(n)
  {
    PrintedIsDumped(n, depth, indent);
    if LeavesPlain(n) { CoversIfPlain(n); }
    if Visited(n) == Printed(n) { PlainIfSameEntries(n); }
  }

  /** The documented case: leaves without an entry and without children. */
  predicate BareLeaves(n: Ast) {
    n.Node? ==> BareLeaves(n.first) && BareLeaves(n.next) && (n.isLeaf ==> n.text.entry.None? && n.first.Null?)
  }

  lemma {:induction false} BareLeavesArePlain(n: Ast, depth: nat, indent: bool)
    requires BareLeaves(n)
    ensures LeavesPlain(n) && Visited(n) == EntriesOf(Dump(n, depth, indent))
  {
    if n.Node? {
      BareLeavesArePlain(n.first, depth, indent);
      BareLeavesArePlain(n.next, depth, indent);
    }
    CoversIfPlain(n);
    PrintedIsDumped(n, depth, indent);
  }

  // ---------------------------------------------------------------- the order of the phases

  datatype Event = Symbol(file: nat, entry: nat) | Line(file: nat, entry: nat)

  function Symbols(file: nat, es: seq<nat>): seq<Event> {
    seq(|es|, i requires 0 <= i < |es| => Symbol(file, es[i]))
  }

  function Lines(file: nat, es: seq<nat>): seq<Event> {
    seq(|es|, i requires 0 <= i < |es| => Line(file, es[i]))
  }

  function AllSymbols(files: seq<Ast>, count: nat): seq<Event>
    requires count <= |files|
  {
    if count == 0 then [] else AllSymbols(files, count - 1) + Symbols(count - 1, Visited(files[count - 1]))
  }

  /** The lines of the dumps of the first files, at depth 1 as dump_ast has it */
  function AllLines(files: seq<Ast>, count: nat, indent: bool): seq<Event>
    requires count <= |files|
  {
    if count == 0 then []
    else AllLines(files, count - 1, indent) + Lines(count - 1, EntriesOf(Dump(files[count - 1], 1, indent)))
  }

  function Phases(files: seq<Ast>, indent: bool): seq<Event> {
    AllSymbols(files, |files|) + AllLines(files, |files|, indent)
  }

  /** write_sym_info_of_ast_reference */
  method WriteAllSymbols(files: seq<Ast>) returns (events: seq<Event>)
    ensures events == AllSymbols(files, |files|)
  {
    events := [];
    var i := 0;
    while i < |files|
      invariant 0 <= i <= |files| && events == AllSymbols(files, i)
    {
      var written := WriteSymbols(files[i]);
      events := events + Symbols(i, written);
      i := i + 1;
    }
  }

  /** dump_ast, as far as its lines give entries: the calls are those of walk_ast. */
  method DumpAllLines(files: seq<Ast>, indent: bool) returns (events: seq<Event>)
    ensures events == AllLines(files, |files|, indent)
  {
    events := [];
    var i := 0;
    while i < |files|
      invariant 0 <= i <= |files| && events == AllLines(files, i, indent)
    {
      var out := new Output();
      out.WalkAst(files[i], 1, indent);
      assert out.calls == Dump(files[i], 1, indent);
      events := events + Lines(i, EntriesOf(out.calls));
      i := i + 1;
    }
  }

  /** The symbols of all files, then (unless the AST is corrupted) the dumps of all files. */
  method DumpPhases(files: seq<Ast>, corrupted: bool, indent: bool) returns (events: seq<Event>)
    ensures events == if corrupted then AllSymbols(files, |files|) else Phases(files, indent)
  {
    events := WriteAllSymbols(files);
    if !corrupted {
      var lines := DumpAllLines(files, indent);
      events := events + lines;
    }
  }

  lemma {:induction false} SymbolFound(files: seq<Ast>, count: nat, file: nat, e: nat) returns (i: nat)
    requires file < count <= |files| && e in Visited(files[file])
    ensures i < |AllSymbols(files, count)| && AllSymbols(files, count)[i] == Symbol(file, e)
  {
    if file == count - 1 {
      var k :| 0 <= k < |Visited(files[file])| && Visited(files[file])[k] == e;
      i := |AllSymbols(files, count - 1)| + k;
    } else {
      i := SymbolFound(files, count - 1, file, e);
    }
  }

  lemma {:induction false} LineFrom(files: seq<Ast>, count: nat, i: nat, indent: bool)
    requires count <= |files| && i < |AllLines(files, count, indent)|
    ensures var l := AllLines(files, count, indent)[i];
      l.Line? && l.file < count && l.entry in EntriesOf(Dump(files[l.file], 1, indent))
  {
    if i < |AllLines(files, count - 1, indent)| { LineFrom(files, count - 1, i, indent); }
  }

  lemma {:induction false} OnlySymbols(files: seq<Ast>, count: nat)
    requires count <= |files|
    ensures forall i :: 0 <= i < |AllSymbols(files, count)| ==> AllSymbols(files, count)[i].Symbol?
  {
    if count > 0 { OnlySymbols(files, count - 1); }
  }

  /** Before a line that gives an entry's number is printed, its symbol has been written to the same file. */
  lemma SymbolBeforeLine(files: seq<Ast>, k: nat, indent: bool) returns (j: nat)
    requires forall f :: f in files ==> LeavesPlain(f)
    requires k < |Phases(files, indent)| && Phases(files, indent)[k].Line?
    ensures var events := Phases(files, indent);
      j < k && events[j] == Symbol(events[k].file, events[k].entry)
  {
    var symbols := AllSymbols(files, |files|);
    OnlySymbols(files, |files|);
    var l := Phases(files, indent)[k];
    LineFrom(files, |files|, k - |symbols|, indent);
    CoversIfPlain(files[l.file]);
    PrintedIsDumped(files[l.file], 1, indent);
    j := SymbolFound(files, |files|, l.file, l.entry);
  }
}
