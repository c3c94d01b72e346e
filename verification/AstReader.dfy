/**
 Reading a dump back.  What a dump says is the forest without the flags: suppressed nodes
 replaced by their children, suppressed subtrees left out.
 */
module AstReader {
  import opened Basics
  import opened AstPrinter

  /** The forest a dump shows. */
  datatype Forest =
    | Empty
    | Leaf(text: Words, pos: string, next: Forest)
    | Inner(name: string, text: Words, pos: string, kids: Forest, next: Forest)

  function Append(a: Forest, b: Forest): Forest {
    match a
    case Empty => b
    case Leaf(t, p, n) => Leaf(t, p, Append(n, b))
    case Inner(m, t, p, k, n) => Inner(m, t, p, k, Append(n, b))
  }

  /** Splices suppressed nodes, drops suppressed subtrees that are not leaves, forgets the flags. */
  function Erase(n: Ast): Forest {
    if n.Null? then Empty
    else if n.isLeaf then Leaf(n.text, n.pos, Erase(n.next))
    else if n.suppressSubtree then Erase(n.next)
    else if n.suppressNode then Append(Erase(n.first), Erase(n.next))
    else Inner(n.name, n.text, n.pos, Erase(n.first), Erase(n.next))
  }

  /** A forest as an AST that suppresses nothing. */
  function Plain(f: Forest): Ast {
    match f
    case Empty => Null
    case Leaf(t, p, n) => Node(true, false, false, "", t, p, Null, Plain(n))
    case Inner(m, t, p, k, n) => Node(false, false, false, m, t, p, Plain(k), Plain(n))
  }

  // ---------------------------------------------------------------- the reader

  datatype Parsed = Bad | Got(forest: Forest, rest: seq<Token>)

  /** Do the tokens start with a line of this depth that shows a node? */
  predicate StartsItem(ts: seq<Token>, depth: nat, indent: bool) {
    var d := if indent then depth else 0;
    |ts| > d && ts[..d] == Indent(depth, indent) && (ts[d].Text? || ts[d].Name?)
  }

  /** Reads nodes of one depth for as long as there are any; every line must be indented right. */
  function Parse(ts: seq<Token>, depth: nat, indent: bool): (r: Parsed)
    ensures r.Got? ==> |r.rest| <= |ts|
    decreases |ts|
  {
    if !StartsItem(ts, depth, indent) then Got(Empty, ts)
    else
      var line := ts[|Indent(depth, indent)|..];
      if line[0].Text? then
        if |line| < 3 || !line[1].Pos? || line[2] != Eol then Bad
        else
          var siblings := Parse(line[3..], depth, indent);
          if siblings.Bad? then Bad
          else Got(Leaf(line[0].words, line[1].s, siblings.forest), siblings.rest)
      else if |line| < 4 || !line[1].Text? || !line[2].Pos? || line[3] != LBrace then Bad
      else
        var kids := ParseKids(line[4..], depth, indent);
        if kids.Bad? || |kids.rest| < 2 || kids.rest[0] != RBrace || kids.rest[1] != Eol then Bad
        else
          var siblings := Parse(kids.rest[2..], depth, indent);
          if siblings.Bad? then Bad
          else Got(Inner(line[0].s, line[1].words, line[2].s, kids.forest, siblings.forest), siblings.rest)
  }

  /** Between the braces: "{}" and an empty list of lines mean the same. */
  function ParseKids(ts: seq<Token>, depth: nat, indent: bool): (r: Parsed)
    ensures r.Got? ==> |r.rest| <= |ts|
    decreases |ts|
  {
    if ts == [] || ts[0] != Eol then Got(Empty, ts)
    else
      var kids := Parse(ts[1..], depth + 1, indent);
      var d := |Indent(depth, indent)|;
      if kids.Bad? || |kids.rest| < d || kids.rest[..d] != Indent(depth, indent) then Bad
      else Got(kids.forest, kids.rest[d..])
  }

  // ---------------------------------------------------------------- reading back what was written

  lemma {:induction false} AppendEmpty(f: Forest)
    ensures Append(f, Empty) == f
  {
    if f.Leaf? || f.Inner? { AppendEmpty(f.next); }
  }

  lemma {:induction false} AppendAssociates(a: Forest, b: Forest, c: Forest)
    ensures Append(Append(a, b), c) == Append(a, Append(b, c))
  {
    if a.Leaf? || a.Inner? { AppendAssociates(a.next, b, c); }
  }

  lemma IndentedLine(depth: nat, indent: bool, line: seq<Token>)
    requires line != [] && (line[0].Text? || line[0].Name?)
    ensures StartsItem(Indent(depth, indent) + line, depth, indent)
    ensures (Indent(depth, indent) + line)[|Indent(depth, indent)|..] == line
  {
    var ts := Indent(depth, indent) + line;
    assert ts[..|Indent(depth, indent)|] == Indent(depth, indent);
  }

  lemma ReadsLeaf(text: Words, pos: string, ts: seq<Token>, depth: nat, indent: bool)
    requires Parse(ts, depth, indent).Got?
    ensures var siblings := Parse(ts, depth, indent);
            Parse(Indent(depth, indent) + ([Text(text), Pos(pos), Eol] + ts), depth, indent)
            == Got(Leaf(text, pos, siblings.forest), siblings.rest)
  {
    var line := [Text(text), Pos(pos), Eol] + ts;
    IndentedLine(depth, indent, line);
    assert line[3..] == ts;
    LeafLine(Indent(depth, indent) + line, line, depth, indent);
  }

  /** One step of the reader on the line of a leaf. */
  lemma LeafLine(ts: seq<Token>, line: seq<Token>, depth: nat, indent: bool)
    requires StartsItem(ts, depth, indent) && ts[|Indent(depth, indent)|..] == line
    requires |line| >= 3 && line[0].Text? && line[1].Pos? && line[2] == Eol
    ensures var siblings := Parse(line[3..], depth, indent);
            siblings.Got? ==>
              Parse(ts, depth, indent) == Got(Leaf(line[0].words, line[1].s, siblings.forest), siblings.rest)
  {
  }

  lemma {:induction false} ReadsInner(n: Ast, kids: seq<Token>, forest: Forest, ts: seq<Token>,
                                      depth: nat, indent: bool)
    requires n.Node? && Parse(ts, depth, indent).Got?
    requires ParseKids(kids + ([RBrace, Eol] + ts), depth, indent) == Got(forest, [RBrace, Eol] + ts)
    ensures var siblings := Parse(ts, depth, indent);
            Parse(Indent(depth, indent) + (Head(n) + (kids + ([RBrace, Eol] + ts))), depth, indent)
            == Got(Inner(n.name, n.text, n.pos, forest, siblings.forest), siblings.rest)
  {
    var tail := kids + ([RBrace, Eol] + ts);
    var line := Head(n) + tail;
    IndentedLine(depth, indent, line);
    HeadDropped(n, tail);
    assert ([RBrace, Eol] + ts)[2..] == ts;
    InnerLine(Indent(depth, indent) + line, line, depth, indent);
  }

  lemma HeadDropped(n: Ast, tail: seq<Token>)
    requires n.Node?
    ensures (Head(n) + tail)[4..] == tail
    ensures (Head(n) + tail)[..4] == Head(n)
  {
  }

  /** One step of the reader on a line that opens a node. */
  lemma InnerLine(ts: seq<Token>, line: seq<Token>, depth: nat, indent: bool)
    requires StartsItem(ts, depth, indent) && ts[|Indent(depth, indent)|..] == line
    requires |line| >= 4 && line[0].Name? && line[1].Text? && line[2].Pos? && line[3] == LBrace
    ensures var kids := ParseKids(line[4..], depth, indent);
            kids.Got? && |kids.rest| >= 2 && kids.rest[0] == RBrace && kids.rest[1] == Eol ==>
              var siblings := Parse(kids.rest[2..], depth, indent);
              siblings.Got? ==>
                Parse(ts, depth, indent)
                == Got(Inner(line[0].s, line[1].words, line[2].s, kids.forest, siblings.forest), siblings.rest)
  {
  }

  /** The line that closes a node is no node of the depth inside. */
  lemma ClosingLineEnds(depth: nat, indent: bool, ts: seq<Token>)
    ensures var line := Indent(depth, indent) + ([RBrace, Eol] + ts);
            Parse(line, depth + 1, indent) == Got(Empty, line)
  {
    var line := Indent(depth, indent) + ([RBrace, Eol] + ts);
    if indent && |line| > depth + 1 {
      assert line[..depth + 1][depth] == RBrace && Indent(depth + 1, indent)[depth] == Blank;
    }
  }

  lemma RegroupItem(a: seq<Token>, b: seq<Token>, c: seq<Token>, d: seq<Token>, e: seq<Token>)
    ensures a + b + c + d + e == a + (b + (c + (d + e)))
  {
    Regroup(c, d, e);
    Regroup(b, c, d + e);
    Regroup(a, b, c + (d + e));
    Regroup(a + b + c, d, e);
    Regroup(a + b, c, d + e);
  }

  /** Reading a dump and then ts gives the erased forest and then what ts gives. */
  lemma {:induction false} Reads(n: Ast, depth: nat, indent: bool, ts: seq<Token>)
    requires Parse(ts, depth, indent).Got?
    ensures var more := Parse(ts, depth, indent);
            Parse(Dump(n, depth, indent) + ts, depth, indent) == Got(Append(Erase(n), more.forest), more.rest)
    decreases n, 1
  {
    if n.Null? {
      assert Dump(n, depth, indent) + ts == ts;
    } else {
      var after := Dump(n.next, depth, indent) + ts;
      Reads(n.next, depth, indent, ts);
      Regroup(Item(n, depth, indent), Dump(n.next, depth, indent), ts);
      ReadsNode(n, depth, indent, after, Parse(ts, depth, indent).forest);
    }
  }

  lemma {:induction false} ReadsNode(n: Ast, depth: nat, indent: bool, ts: seq<Token>, more: Forest)
    requires n.Node? && Parse(ts, depth, indent).Got?
    requires Parse(ts, depth, indent).forest == Append(Erase(n.next), more)
    ensures Parse(Item(n, depth, indent) + ts, depth, indent)
         == Got(Append(Erase(n), more), Parse(ts, depth, indent).rest)
    decreases n, 0
  {
    if n.isLeaf {
      Regroup(Indent(depth, indent), [Text(n.text), Pos(n.pos), Eol], ts);
      ReadsLeaf(n.text, n.pos, ts, depth, indent);
    } else if n.suppressSubtree {
      assert Item(n, depth, indent) + ts == ts;
    } else if n.suppressNode {
      Reads(n.first, depth, indent, ts);
      AppendAssociates(Erase(n.first), Erase(n.next), more);
    } else {
      ReadsKids(n.first, depth, indent, ts);
      ReadsPrinted(n, depth, indent, ts, more);
    }
  }

  lemma ItemTokens(n: Ast, depth: nat, indent: bool, more: Forest)
    requires n.Node? && !n.isLeaf && !n.suppressSubtree && !n.suppressNode
    ensures Item(n, depth, indent) == Indent(depth, indent) + Head(n) + Kids(n.first, depth, indent) + [RBrace, Eol]
    ensures Append(Erase(n), more)
         == Inner(n.name, n.text, n.pos, Erase(n.first), Append(Erase(n.next), more))
  {
  }

  lemma ReadsPrinted(n: Ast, depth: nat, indent: bool, ts: seq<Token>, more: Forest)
    requires n.Node? && !n.isLeaf && !n.suppressSubtree && !n.suppressNode
    requires Parse(ts, depth, indent).Got? && Parse(ts, depth, indent).forest == Append(Erase(n.next), more)
    requires ParseKids(Kids(n.first, depth, indent) + ([RBrace, Eol] + ts), depth, indent)
          == Got(Erase(n.first), [RBrace, Eol] + ts)
    ensures Parse(Item(n, depth, indent) + ts, depth, indent)
         == Got(Append(Erase(n), more), Parse(ts, depth, indent).rest)
  {
    var kids := Kids(n.first, depth, indent);
    ItemTokens(n, depth, indent, more);
    RegroupItem(Indent(depth, indent), Head(n), kids, [RBrace, Eol], ts);
    ReadsInner(n, kids, Erase(n.first), ts, depth, indent);
  }

  /** One step of the reader between braces that hold lines. */
  lemma KidsLines(all: seq<Token>, depth: nat, indent: bool, forest: Forest, close: seq<Token>)
    requires all != [] && all[0] == Eol
    requires Parse(all[1..], depth + 1, indent) == Got(forest, Indent(depth, indent) + close)
    ensures ParseKids(all, depth, indent) == Got(forest, close)
  {
    var line := Indent(depth, indent) + close;
    assert line[..|Indent(depth, indent)|] == Indent(depth, indent) && line[|Indent(depth, indent)|..] == close;
  }

  lemma {:induction false} ReadsKids(first: Ast, depth: nat, indent: bool, ts: seq<Token>)
    ensures ParseKids(Kids(first, depth, indent) + ([RBrace, Eol] + ts), depth, indent)
         == Got(Erase(first), [RBrace, Eol] + ts)
    decreases first, 2
  {
    var close := [RBrace, Eol] + ts;
    if first.Null? {
      assert Kids(first, depth, indent) + close == close;
    } else {
      var line := Indent(depth, indent) + close;
      ClosingLineEnds(depth, indent, ts);
      Reads(first, depth + 1, indent, line);
      AppendEmpty(Erase(first));
      KidsRegroup(Dump(first, depth + 1, indent), Indent(depth, indent), close);
      KidsLines(Kids(first, depth, indent) + close, depth, indent, Erase(first), close);
    }
  }

  lemma KidsRegroup(dump: seq<Token>, ind: seq<Token>, close: seq<Token>)
    ensures ([Eol] + dump + ind + close)[0] == Eol
    ensures ([Eol] + dump + ind + close)[1..] == dump + (ind + close)
  {
  }

  /** Every dump can be read back, line by line at the right indentation, as the erased forest. */
  lemma RoundTrip(n: Ast, depth: nat, indent: bool)
    ensures Parse(Dump(n, depth, indent), depth, indent) == Got(Erase(n), [])
  {
    Reads(n, depth, indent, []);
    AppendEmpty(Erase(n));
    assert Dump(n, depth, indent) + [] == Dump(n, depth, indent);
  }

  // ---------------------------------------------------------------- the erased forest, dumped

  /** A printed node has children, none of which prints anything. */
  predicate Hollow(n: Ast) {
    n.Node? &&
      (Hollow(n.next)
       || (!n.isLeaf && !n.suppressSubtree
           && (Hollow(n.first) || (!n.suppressNode && n.first.Node? && Erase(n.first) == Empty))))
  }

  lemma {:induction false} DumpAppend(a: Forest, b: Forest, depth: nat, indent: bool)
    ensures Dump(Plain(Append(a, b)), depth, indent) == Dump(Plain(a), depth, indent) + Dump(Plain(b), depth, indent)
  {
    if a.Leaf? || a.Inner? {
      DumpAppend(a.next, b, depth, indent);
    }
  }

  /** What the dump of the erased forest has for one printed node. */
  lemma PlainInner(n: Ast, depth: nat, indent: bool)
    requires n.Node? && !n.isLeaf && !n.suppressSubtree && !n.suppressNode
    ensures Dump(Plain(Erase(n)), depth, indent)
         == Indent(depth, indent) + Head(n) + Kids(Plain(Erase(n.first)), depth, indent) + [RBrace, Eol]
          + Dump(Plain(Erase(n.next)), depth, indent)
  {
    var m := Plain(Erase(n));
    assert Head(m) == Head(n);
  }

  lemma PlainIsNull(f: Forest)
    ensures Plain(f).Null? <==> f.Empty?
  {
  }

  predicate NoShorter(a: seq<Token>, b: seq<Token>, hollow: bool) {
    if hollow then |a| < |b| else a == b
  }

  /** Between the braces of one printed node. */
  lemma ErasedKids(first: Ast, depth: nat, indent: bool)
    requires NoShorter(Dump(Plain(Erase(first)), depth + 1, indent), Dump(first, depth + 1, indent), Hollow(first))
    ensures NoShorter(Kids(Plain(Erase(first)), depth, indent), Kids(first, depth, indent),
                      Hollow(first) || (first.Node? && Erase(first) == Empty))
  {
    PlainIsNull(Erase(first));
  }

  /** Erasing first changes nothing but the lines a hollow node spends on its empty braces. */
  lemma {:induction false} ErasedDump(n: Ast, depth: nat, indent: bool)
    ensures NoShorter(Dump(Plain(Erase(n)), depth, indent), Dump(n, depth, indent), Hollow(n))
    decreases n
  {
    if n.Node? {
      ErasedDump(n.next, depth, indent);
      if n.isLeaf || n.suppressSubtree {
      } else if n.suppressNode {
        ErasedDump(n.first, depth, indent);
        DumpAppend(Erase(n.first), Erase(n.next), depth, indent);
      } else {
        ErasedDump(n.first, depth + 1, indent);
        ErasedKids(n.first, depth, indent);
        PlainInner(n, depth, indent);
        assert Dump(n, depth, indent)
            == Indent(depth, indent) + Head(n) + Kids(n.first, depth, indent) + [RBrace, Eol]
             + Dump(n.next, depth, indent);
      }
    }
  }

  /** Dumping the erased forest gives the same dump exactly when no printed node is hollow. */
  lemma ErasedDumpIff(n: Ast, depth: nat, indent: bool)
    ensures Dump(Plain(Erase(n)), depth, indent) == Dump(n, depth, indent) <==> !Hollow(n)
  {
    ErasedDump(n, depth, indent);
  }
}
