/**
 The dump in characters: the lines of each node written out, every one indented by the start depth
 and its printed ancestors, with braces that balance.
 */
module AstLines {
  import opened Basics
  import opened AstPrinter

  /** The four kinds of lines. A node without children opens and closes on one line. */
  datatype Line =
    | LeafLine(depth: nat, text: string, pos: string)
    | Opening(depth: nat, name: string, text: string, pos: string)
    | Childless(depth: nat, name: string, text: string, pos: string)
    | Closing(depth: nat)

  /** A line without its indentation and the terminator */
  function Content(l: Line): string {
    match l
    case LeafLine(_, text, pos) => text + pos
    case Opening(_, name, text, pos) => name + text + pos + "{"
    case Childless(_, name, text, pos) => name + text + pos + "{" + "}"
    case Closing(_) => "}"
  }

  function LineText(l: Line, eol: string): string {
    seq(l.depth, _ => ' ') + (Content(l) + eol)
  }

  /** The lines of a chain of siblings: children of a printed node are one deeper, spliced ones are not. */
  function LinesOf(n: Ast, depth: nat, indent: bool): seq<Line>
    decreases n, 1
  {
    if n.Null? then [] else ItemLines(n, depth, indent) + LinesOf(n.next, depth, indent)
  }

  function ItemLines(n: Ast, depth: nat, indent: bool): seq<Line>
    requires n.Node?
    decreases n, 0
  {
    var d := if indent then depth else 0;
    if n.isLeaf then [LeafLine(d, n.text.s, n.pos)]
    else if n.suppressSubtree then []
    else if n.suppressNode then LinesOf(n.first, depth, indent)
    else if n.first.Null? then [Childless(d, n.name, n.text.s, n.pos)]
    else [Opening(d, n.name, n.text.s, n.pos)] + (LinesOf(n.first, depth + 1, indent) + [Closing(d)])
  }

  /** The characters of the lines, one after the other */
  function Layout(ls: seq<Line>, eol: string): string {
    if ls == [] then "" else Layout(ls[..|ls| - 1], eol) + LineText(ls[|ls| - 1], eol)
  }

  lemma {:induction false} LayoutAppend(a: seq<Line>, b: seq<Line>, eol: string)
    ensures Layout(a + b, eol) == Layout(a, eol) + Layout(b, eol)
  {
    if b == [] {
      assert a + b == a;
    } else {
      var init, last := b[..|b| - 1], b[|b| - 1];
      assert (a + b)[..|a + b| - 1] == a + init && (a + b)[|a + b| - 1] == last;
      LayoutAppend(a, init, eol);
      Regroup(Layout(a, eol), Layout(init, eol), LineText(last, eol));
    }
  }

  lemma LayoutOne(l: Line, eol: string)
    ensures Layout([l], eol) == LineText(l, eol)
  {
    assert [l][..0] == [];
    assert Layout([], eol) == "";
  }

  // ---------------------------------------------------------------- tokens and characters

  lemma RenderOne(t: Token, eol: string)
    ensures Render([t], eol) == Glyph(t, eol)
  {
    assert [t][..0] == [] && Render([], eol) == "";
  }

  lemma RenderPair(a: seq<Token>, x: string, t: Token, eol: string)
    requires Render(a, eol) == x
    ensures Render(a + [t], eol) == x + Glyph(t, eol)
  {
    RenderAppend(a, [t], eol);
    RenderOne(t, eol);
  }

  /** The blanks of an indentation, and what is written behind them */
  lemma Indented(depth: nat, indent: bool, content: seq<Token>, text: string, eol: string)
    requires Render(content, eol) == text
    ensures Render(Indent(depth, indent) + (content + [Eol]), eol)
         == seq(if indent then depth else 0, _ => ' ') + (text + eol)
  {
    RenderAppend(Indent(depth, indent), content + [Eol], eol);
    RenderPair(content, text, Eol, eol);
    if indent { RenderBlanks(depth, eol); }
  }

  lemma LeafRendered(n: Ast, eol: string)
    requires n.Node?
    ensures Render([Text(n.text)] + [Pos(n.pos)], eol) == n.text.s + n.pos
  {
    RenderOne(Text(n.text), eol);
    RenderPair([Text(n.text)], n.text.s, Pos(n.pos), eol);
  }

  lemma HeadRendered(n: Ast, eol: string)
    requires n.Node?
    ensures Render(Head(n), eol) == n.name + n.text.s + n.pos + "{"
  {
    var a, b, c := [Name(n.name)], [Name(n.name)] + [Text(n.text)], [Name(n.name)] + [Text(n.text)] + [Pos(n.pos)];
    RenderOne(Name(n.name), eol);
    RenderPair(a, n.name, Text(n.text), eol);
    RenderPair(b, n.name + n.text.s, Pos(n.pos), eol);
    RenderPair(c, n.name + n.text.s + n.pos, LBrace, eol);
    assert Head(n) == c + [LBrace];
  }

  // ---------------------------------------------------------------- the dump is its lines

  /** The characters of every dump, written out */
  lemma {:induction false} DumpIsLines(n: Ast, depth: nat, indent: bool, eol: string)
    ensures Render(Dump(n, depth, indent), eol) == Layout(LinesOf(n, depth, indent), eol)
    decreases n, 1
  {
    if n.Node? {
      ItemIsLines(n, depth, indent, eol);
      DumpIsLines(n.next, depth, indent, eol);
      RenderAppend(Item(n, depth, indent), Dump(n.next, depth, indent), eol);
      LayoutAppend(ItemLines(n, depth, indent), LinesOf(n.next, depth, indent), eol);
    }
  }

  lemma {:induction false} ItemIsLines(n: Ast, depth: nat, indent: bool, eol: string)
    requires n.Node?
    ensures Render(Item(n, depth, indent), eol) == Layout(ItemLines(n, depth, indent), eol)
    decreases n, 0
  {
    var d := if indent then depth else 0;
    if n.isLeaf {
      LeafRendered(n, eol);
      Indented(depth, indent, [Text(n.text)] + [Pos(n.pos)], n.text.s + n.pos, eol);
      LayoutOne(LeafLine(d, n.text.s, n.pos), eol);
      assert Item(n, depth, indent) == Indent(depth, indent) + ([Text(n.text)] + [Pos(n.pos)] + [Eol]);
    } else if n.suppressSubtree {
    } else if n.suppressNode {
      DumpIsLines(n.first, depth, indent, eol);
    } else if n.first.Null? {
      HeadRendered(n, eol);
      RenderPair(Head(n), n.name + n.text.s + n.pos + "{", RBrace, eol);
      Indented(depth, indent, Head(n) + [RBrace], n.name + n.text.s + n.pos + "{" + "}", eol);
      LayoutOne(Childless(d, n.name, n.text.s, n.pos), eol);
      assert Item(n, depth, indent) == Indent(depth, indent) + (Head(n) + [RBrace] + [Eol]);
    } else {
      DumpIsLines(n.first, depth + 1, indent, eol);
      BracedIsLines(n, depth, indent, eol);
    }
  }

  lemma RenderThree(a: seq<Token>, b: seq<Token>, c: seq<Token>, x: string, y: string, z: string, eol: string)
    requires Render(a, eol) == x && Render(b, eol) == y && Render(c, eol) == z
    ensures Render(a + (b + c), eol) == x + (y + z)
  {
    RenderAppend(b, c, eol);
    RenderAppend(a, b + c, eol);
  }

  lemma LayoutThree(a: Line, b: seq<Line>, c: Line, x: string, y: string, z: string, eol: string)
    requires LineText(a, eol) == x && Layout(b, eol) == y && LineText(c, eol) == z
    ensures Layout([a] + (b + [c]), eol) == x + (y + z)
  {
    LayoutOne(a, eol);
    LayoutOne(c, eol);
    LayoutAppend(b, [c], eol);
    LayoutAppend([a], b + [c], eol);
  }

  /** A printed node with children: its own line, theirs, and the line that closes it. */
  lemma BracedIsLines(n: Ast, depth: nat, indent: bool, eol: string)
    requires n.Node? && !n.isLeaf && !n.suppressSubtree && !n.suppressNode && n.first.Node?
    requires Render(Dump(n.first, depth + 1, indent), eol) == Layout(LinesOf(n.first, depth + 1, indent), eol)
    ensures Render(Item(n, depth, indent), eol) == Layout(ItemLines(n, depth, indent), eol)
  {
    var d := if indent then depth else 0;
    var open, close := Opening(d, n.name, n.text.s, n.pos), Closing(d);
    var dump, lines := Dump(n.first, depth + 1, indent), LinesOf(n.first, depth + 1, indent);
    OpeningRendered(n, depth, indent, eol);
    ClosingRendered(depth, indent, eol);
    BracedTokens(n, depth, indent);
    RenderThree(Indent(depth, indent) + (Head(n) + [Eol]), dump, Indent(depth, indent) + ([RBrace] + [Eol]),
                LineText(open, eol), Layout(lines, eol), LineText(close, eol), eol);
    LayoutThree(open, lines, close, LineText(open, eol), Layout(lines, eol), LineText(close, eol), eol);
  }

  lemma OpeningRendered(n: Ast, depth: nat, indent: bool, eol: string)
    requires n.Node?
    ensures Render(Indent(depth, indent) + (Head(n) + [Eol]), eol)
         == LineText(Opening(if indent then depth else 0, n.name, n.text.s, n.pos), eol)
  {
    HeadRendered(n, eol);
    Indented(depth, indent, Head(n), n.name + n.text.s + n.pos + "{", eol);
  }

  lemma ClosingRendered(depth: nat, indent: bool, eol: string)
    ensures Render(Indent(depth, indent) + ([RBrace] + [Eol]), eol)
         == LineText(Closing(if indent then depth else 0), eol)
  {
    RenderOne(RBrace, eol);
    Indented(depth, indent, [RBrace], "}", eol);
  }

  lemma BracedTokens(n: Ast, depth: nat, indent: bool)
    requires n.Node? && !n.isLeaf && !n.suppressSubtree && !n.suppressNode && n.first.Node?
    ensures Item(n, depth, indent) == (Indent(depth, indent) + (Head(n) + [Eol]))
      + (Dump(n.first, depth + 1, indent) + (Indent(depth, indent) + ([RBrace] + [Eol])))
  {
  }

  /** No line is above the start depth, and only texts that hold a line end put one inside a line. */
  lemma {:induction false} LinesAreLines(n: Ast, depth: nat, c: char)
    requires TextsLack(n, c) && c != '{' && c != '}'
    ensures forall l :: l in LinesOf(n, depth, true) ==> depth <= l.depth && c !in Content(l)
    decreases n
  {
    if n.Node? {
      LinesAreLines(n.next, depth, c);
      if !n.isLeaf && !n.suppressSubtree {
        LinesAreLines(n.first, if n.suppressNode then depth else depth + 1, c);
      }
    }
  }

  /** The character occurs in no name, text or position of the tree. */
  predicate TextsLack(n: Ast, c: char) {
    n.Node? ==>
      c !in n.name && c !in n.text.s && c !in n.pos && TextsLack(n.first, c) && TextsLack(n.next, c)
  }

  // ---------------------------------------------------------------- braces balance

  /** Opening braces less closing ones */
  function Level(t: string): int {
    if t == "" then 0
    else
      var c := t[|t| - 1];
      Level(t[..|t| - 1]) + if c == '{' then 1 else if c == '}' then -1 else 0
  }

  /** No prefix has more closing braces than opening ones, and the totals agree. */
  ghost predicate Balanced(t: string) {
    Swings(t, 0, 0)
  }

  /** The text has this many more opening braces, and no prefix has more than dip fewer. */
  ghost predicate Swings(t: string, rise: int, dip: nat) {
    Level(t) == rise && forall k :: 0 <= k <= |t| ==> Level(t[..k]) + dip >= 0
  }

  lemma {:induction false} LevelAppend(s: string, t: string)
    ensures Level(s + t) == Level(s) + Level(t)
  {
    if t == "" {
      assert s + t == s;
    } else {
      assert (s + t)[..|s + t| - 1] == s + t[..|t| - 1];
      LevelAppend(s, t[..|t| - 1]);
    }
  }

  lemma SwingsAppend(s: string, t: string, a: int, m: nat, b: int, n: nat)
    requires Swings(s, a, m) && Swings(t, b, n) && n <= m + a
    ensures Swings(s + t, a + b, m)
  {
    LevelAppend(s, t);
    forall k | 0 <= k <= |s + t| ensures Level((s + t)[..k]) + m >= 0 {
      if k <= |s| {
        assert (s + t)[..k] == s[..k];
      } else {
        assert (s + t)[..k] == s + t[..k - |s|];
        LevelAppend(s, t[..k - |s|]);
      }
    }
  }

  lemma {:induction false} PlainIsLevel(t: string)
    requires '{' !in t && '}' !in t
    ensures Level(t) == 0
  {
    if t != "" { PlainIsLevel(t[..|t| - 1]); }
  }

  lemma PlainSwings(t: string)
    requires '{' !in t && '}' !in t
    ensures Swings(t, 0, 0)
  {
    PlainIsLevel(t);
    forall k | 0 <= k <= |t| ensures Level(t[..k]) >= 0 { PlainIsLevel(t[..k]); }
  }

  lemma BracesSwing()
    ensures Swings("{", 1, 0) && Swings("}", -1, 1)
  {
    assert "{"[..0] == "" && "}"[..0] == "" && "{"[..1] == "{" && "}"[..1] == "}";
  }

  lemma ContentSwings(l: Line)
    requires '{' !in WordsOf(l) && '}' !in WordsOf(l)
    ensures l.LeafLine? || l.Childless? ==> Swings(Content(l), 0, 0)
    ensures l.Opening? ==> Swings(Content(l), 1, 0)
    ensures l.Closing? ==> Swings(Content(l), -1, 1)
  {
    var words := WordsOf(l);
    PlainSwings(words);
    BracesSwing();
    if l.Opening? || l.Childless? {
      SwingsAppend(words, "{", 0, 0, 1, 0);
      SwingsAppend(words + "{", "}", 1, 0, -1, 1);
    }
  }

  /** What a line holds besides braces */
  function WordsOf(l: Line): string {
    match l
    case LeafLine(_, text, pos) => text + pos
    case Opening(_, name, text, pos) => name + text + pos
    case Childless(_, name, text, pos) => name + text + pos
    case Closing(_) => ""
  }

  lemma LineSwings(l: Line, eol: string)
    requires '{' !in WordsOf(l) && '}' !in WordsOf(l) && '{' !in eol && '}' !in eol
    ensures l.LeafLine? || l.Childless? ==> Swings(LineText(l, eol), 0, 0)
    ensures l.Opening? ==> Swings(LineText(l, eol), 1, 0)
    ensures l.Closing? ==> Swings(LineText(l, eol), -1, 1)
  {
    var blanks: string := seq(l.depth, _ => ' ');
    var rise := if l.Opening? then 1 else if l.Closing? then -1 else 0;
    var dip := if l.Closing? then 1 else 0;
    ContentSwings(l);
    PlainSwings(eol);
    PlainSwings(blanks);
    assert Swings(blanks, 0, dip);
    SwingsAppend(Content(l), eol, rise, dip, 0, 0);
    SwingsAppend(blanks, Content(l) + eol, 0, dip, rise, dip);
  }

  lemma {:induction false} LinesBalance(n: Ast, depth: nat, indent: bool, eol: string)
    requires TextsLack(n, '{') && TextsLack(n, '}') && '{' !in eol && '}' !in eol
    ensures Balanced(Layout(LinesOf(n, depth, indent), eol))
    decreases n, 1
  {
    if n.Null? {
      PlainSwings("");
    } else {
      var item, rest := ItemLines(n, depth, indent), LinesOf(n.next, depth, indent);
      ItemBalances(n, depth, indent, eol);
      LinesBalance(n.next, depth, indent, eol);
      LayoutAppend(item, rest, eol);
      SwingsAppend(Layout(item, eol), Layout(rest, eol), 0, 0, 0, 0);
    }
  }

  lemma {:induction false} ItemBalances(n: Ast, depth: nat, indent: bool, eol: string)
    requires n.Node? && TextsLack(n, '{') && TextsLack(n, '}') && '{' !in eol && '}' !in eol
    ensures Balanced(Layout(ItemLines(n, depth, indent), eol))
    decreases n, 0
  {
    if n.isLeaf {
      OneLineBalances(ItemLines(n, depth, indent)[0], eol);
    } else if n.suppressSubtree {
      PlainSwings("");
    } else if n.suppressNode {
      LinesBalance(n.first, depth, indent, eol);
    } else if n.first.Null? {
      OneLineBalances(ItemLines(n, depth, indent)[0], eol);
    } else {
      var d := if indent then depth else 0;
      LinesBalance(n.first, depth + 1, indent, eol);
      BracedBalances(Opening(d, n.name, n.text.s, n.pos), LinesOf(n.first, depth + 1, indent), Closing(d), eol);
    }
  }

  lemma OneLineBalances(l: Line, eol: string)
    requires '{' !in WordsOf(l) && '}' !in WordsOf(l) && '{' !in eol && '}' !in eol && (l.LeafLine? || l.Childless?)
    ensures Balanced(Layout([l], eol))
  {
    LineSwings(l, eol);
    LayoutOne(l, eol);
  }

  lemma BracedBalances(open: Line, lines: seq<Line>, close: Line, eol: string)
    requires open.Opening? && close.Closing?
    requires '{' !in WordsOf(open) && '}' !in WordsOf(open) && '{' !in eol && '}' !in eol
    requires Balanced(Layout(lines, eol))
    ensures Balanced(Layout([open] + (lines + [close]), eol))
  {
    var x, y, z := LineText(open, eol), Layout(lines, eol), LineText(close, eol);
    LineSwings(open, eol);
    LineSwings(close, eol);
    LayoutThree(open, lines, close, x, y, z, eol);
    assert Swings(y, 0, 1);
    SwingsAppend(y, z, 0, 1, -1, 1);
    SwingsAppend(x, y + z, 1, 0, -1, 1);
  }

  /** If the texts hold no braces of their own, those of the dump balance. */
  lemma DumpBalances(n: Ast, depth: nat, indent: bool, eol: string)
    requires TextsLack(n, '{') && TextsLack(n, '}') && '{' !in eol && '}' !in eol
    ensures Level(Render(Dump(n, depth, indent), eol)) == 0
    ensures var text := Render(Dump(n, depth, indent), eol); forall k :: 0 <= k <= |text| ==> Level(text[..k]) >= 0
  {
    DumpIsLines(n, depth, indent, eol);
    LinesBalance(n, depth, indent, eol);
  }

  // ---------------------------------------------------------------- the frame of a file

  /** A file's AST in characters: the frame's own lines, the nodes at depth 1, and the preprocessor's lines */
  lemma FrameIsLines(f: FileAst, multiple: bool, indent: bool, eol: string)
    requires f.first.Node? || f.preprocessor.Some?
    ensures Render(Framed(f, multiple, indent), eol) ==
      "AST {" + eol + (if multiple then "ast_root {" + eol else "")
      + Layout(LinesOf(f.first, 1, indent), eol) + (if multiple then "}" + eol else "")
      + (if f.preprocessor.Some? then Render(f.preprocessor.value, eol) else "") + ("}" + eol)
  {
    var a := [Name("AST {"), Eol];
    var b := if multiple then [Name("ast_root {"), Eol] else [];
    var c, d := Dump(f.first, 1, indent), if multiple then [RBrace, Eol] else [];
    var e := if f.preprocessor.Some? then f.preprocessor.value else [];
    DumpIsLines(f.first, 1, indent, eol);
    TwoTokens(Name("AST {"), eol);
    TwoTokens(Name("ast_root {"), eol);
    TwoTokens(RBrace, eol);
    RenderAppend(a, b, eol);
    RenderAppend(a + b, c, eol);
    RenderAppend(a + b + c, d, eol);
    RenderAppend(a + b + c + d, e, eol);
    RenderAppend(a + b + c + d + e, [RBrace, Eol], eol);
  }

  lemma TwoTokens(t: Token, eol: string)
    ensures Render([t, Eol], eol) == Glyph(t, eol) + eol
  {
    RenderOne(t, eol);
    assert [t, Eol] == [t] + [Eol];
    RenderPair([t], Glyph(t, eol), Eol, eol);
  }
}
