/**
 The AST dump of aset_CCcc/src/SET_dump_if.c: suppressed nodes splice in their children,
 suppressed subtrees vanish, leaves always print.
 */
module AstPrinter {
  import opened Basics
  import opened StringBuffers

  /** The text of a node and its entry: the entity, by number, whose symbol number the text gives. */
  datatype Words = Words(s: string, entry: Option<nat>)

  /**
   A chain of siblings, each with its chain of children (first_child, next_sibling).
   The node name, the text and the position text are opaque strings.
   */
  datatype Ast = Null | Node(isLeaf: bool, suppressNode: bool, suppressSubtree: bool,
                             name: string, text: Words, pos: string, first: Ast, next: Ast)

  /** What one call of the add_ functions contributes. */
  datatype Token = Blank | Name(s: string) | Text(words: Words) | Pos(s: string) | LBrace | RBrace | Eol

  function Indent(depth: nat, indent: bool): seq<Token> {
    if indent then seq(depth, _ => Blank) else []
  }

  function Head(n: Ast): seq<Token>
    requires n.Node?
  {
    [Name(n.name), Text(n.text), Pos(n.pos), LBrace]
  }

  /** The tokens walk_ast writes for a chain of siblings. */
  function Dump(n: Ast, depth: nat, indent: bool): seq<Token>
    decreases n, 1
  {
    if n.Null? then [] else Item(n, depth, indent) + Dump(n.next, depth, indent)
  }

  /** The tokens it writes for one of them. */
  function Item(n: Ast, depth: nat, indent: bool): seq<Token>
    requires n.Node?
    decreases n, 0
  {
    if n.isLeaf then Indent(depth, indent) + [Text(n.text), Pos(n.pos), Eol]
    else if n.suppressSubtree then []
    else if n.suppressNode then Dump(n.first, depth, indent)
    else Indent(depth, indent) + Head(n) + Kids(n.first, depth, indent) + [RBrace, Eol]
  }

  function Kids(first: Ast, depth: nat, indent: bool): seq<Token>
    decreases first, 2
  {
    if first.Null? then [] else [Eol] + Dump(first, depth + 1, indent) + Indent(depth, indent)
  }

  // ---------------------------------------------------------------- the code

  function Glyph(t: Token, eol: string): string {
    match t
    case Blank => " "
    case Name(s) => s
    case Text(w) => w.s
    case Pos(s) => s
    case LBrace => "{"
    case RBrace => "}"
    case Eol => eol
  }

  function Render(ts: seq<Token>, eol: string): string {
    if ts == [] then "" else Render(ts[..|ts| - 1], eol) + Glyph(ts[|ts| - 1], eol)
  }

  lemma {:induction false} RenderAppend(a: seq<Token>, b: seq<Token>, eol: string)
    ensures Render(a + b, eol) == Render(a, eol) + Render(b, eol)
  {
    if b == [] {
      assert a + b == a;
    } else {
      var init, last := b[..|b| - 1], b[|b| - 1];
      assert (a + b)[..|a + b| - 1] == a + init && (a + b)[|a + b| - 1] == last;
      RenderAppend(a, init, eol);
      Regroup(Render(a, eol), Render(init, eol), Glyph(last, eol));
    }
  }

  lemma RenderNext(ts: seq<Token>, i: nat, eol: string)
    requires i < |ts|
    ensures Render(ts[..i + 1], eol) == Render(ts[..i], eol) + Glyph(ts[i], eol)
  {
    assert ts[..i + 1][..i] == ts[..i];
  }

  function Spaces(n: nat): string {
    seq(n, _ => ' ')
  }

  lemma {:induction false} RenderBlanks(n: nat, eol: string)
    ensures Render(Indent(n, true), eol) == Spaces(n)
  {
    if n > 0 {
      assert Indent(n, true)[..n - 1] == Indent(n - 1, true);
      RenderBlanks(n - 1, eol);
      assert Spaces(n) == Spaces(n - 1) + " ";
    }
  }

  /** One call of an add_ function, or of terminate_string, on the output buffer. */
  method Deliver(t: Token, bp: StringBuffer)
    requires bp.Valid() && bp.policy == Flush
    modifies bp, bp.buf
    ensures bp.Valid() && fresh(bp.live - old(bp.live)) && (bp.buf == old(bp.buf) || fresh(bp.buf))
    ensures bp.added == old(bp.added) + Glyph(t, bp.Ending())
  {
    match t {
      case Blank => bp.PutChars(" ");
      case LBrace => bp.PutChars("{");
      case RBrace => bp.PutChars("}");
      case Eol => bp.EndLine();
      case Name(s) => bp.Put(s);
      case Text(w) => bp.Put(w.s);
      case Pos(s) => bp.Put(s);
    }
  }

  /** The calls of a whole dump: the buffer gets their rendering. */
  method DeliverAll(ts: seq<Token>, bp: StringBuffer)
    requires bp.Valid() && bp.policy == Flush
    modifies bp, bp.buf
    ensures bp.Valid() && fresh(bp.live - old(bp.live)) && (bp.buf == old(bp.buf) || fresh(bp.buf))
    ensures bp.added == old(bp.added) + Render(ts, bp.Ending())
  {
    var i := 0;
    while i < |ts|
      invariant 0 <= i <= |ts| && bp.Valid()
      invariant fresh(bp.live - old(bp.live)) && (bp.buf == old(bp.buf) || fresh(bp.buf))
      invariant bp.added == old(bp.added) + Render(ts[..i], bp.Ending())
    {
      Deliver(ts[i], bp);
      RenderNext(ts, i, bp.Ending());
      i := i + 1;
    }
    assert ts[..i] == ts;
  }

  /** The calls made on an output buffer, in order. */
  class Output {
    var calls: seq<Token>

    constructor ()
      ensures calls == []
    {
      calls := [];
    }

    method Add(ts: seq<Token>)
      modifies this
      ensures calls == old(calls) + ts
    {
      calls := calls + ts;
    }

    method AddIf(given: bool, ts: seq<Token>)
      modifies this
      ensures calls == old(calls) + if given then ts else []
    {
      if given { calls := calls + ts; }
    }

    /** indent_to_depth: sixty-four blanks at a time, then the rest */
    method IndentToDepth(depth: nat)
      modifies this
      ensures calls == old(calls) + Indent(depth, true)
    {
      var i := 0;
      while i < depth / 64
        invariant 0 <= i <= depth / 64
        invariant calls == old(calls) + Indent(64 * i, true)
      {
        Add(Indent(64, true));
        assert Indent(64 * i, true) + Indent(64, true) == Indent(64 * (i + 1), true);
        i := i + 1;
      }
      Add(Indent(depth % 64, true));
      assert Indent(64 * i, true) + Indent(depth % 64, true) == Indent(depth, true);
    }

    /** walk_ast */
    method WalkAst(np0: Ast, depth: nat, indent: bool)
      modifies this
      ensures calls == old(calls) + Dump(np0, depth, indent)
      decreases np0, 1
    {
      var np := np0;
      while np.Node?
        invariant old(calls) + Dump(np0, depth, indent) == calls + Dump(np, depth, indent)
        invariant np == np0 || np < np0
        decreases np
      {
        WalkNode(np, depth, indent);
        np := np.next;
      }
    }

    /** The body of its loop */
    method WalkNode(np: Ast, depth: nat, indent: bool)
      requires np.Node?
      modifies this
      ensures calls == old(calls) + Item(np, depth, indent)
      decreases np, 0
    {
      if np.isLeaf {
        if indent { IndentToDepth(depth); }
        Add([Text(np.text)]);
        Add([Pos(np.pos)]);
        Add([Eol]);
      } else if !np.suppressSubtree {
        if !np.suppressNode {
          OpenNode(np, depth, indent);
          WalkChildren(np.first, depth, indent);
          Add([RBrace]);
          Add([Eol]);
          assert calls == old(calls)
            + (Indent(depth, indent) + Head(np) + Kids(np.first, depth, indent) + [RBrace, Eol]);
        } else {
          WalkAst(np.first, depth, indent);
        }
      }
    }

    method OpenNode(np: Ast, depth: nat, indent: bool)
      requires np.Node?
      modifies this
      ensures calls == old(calls) + (Indent(depth, indent) + Head(np))
    {
      if indent { IndentToDepth(depth); }
      Add([Name(np.name)]);
      Add([Text(np.text)]);
      Add([Pos(np.pos)]);
      Add([LBrace]);
    }

    /** The frame of a file's AST, with its nodes inside */
    method WalkFrame(f: FileAst, multiple: bool, indent: bool)
      requires calls == [] && (f.first.Node? || f.preprocessor.Some?)
      modifies this
      ensures calls == Framed(f, multiple, indent)
    {
      Add([Name("AST {"), Eol]);
      assert calls == [Name("AST {"), Eol];
      AddIf(multiple, [Name("ast_root {"), Eol]);
      WalkAst(f.first, 1, indent);
      AddIf(multiple, [RBrace, Eol]);
      AddIf(f.preprocessor.Some?, if f.preprocessor.Some? then f.preprocessor.value else []);
      Add([RBrace, Eol]);
    }

    /** Between the braces: nothing, or the children on lines of their own. */
    method WalkChildren(first: Ast, depth: nat, indent: bool)
      modifies this
      ensures calls == old(calls) + Kids(first, depth, indent)
      decreases first, 2
    {
      if first.Node? {
        Add([Eol]);
        WalkAst(first, depth + 1, indent);
        if indent { IndentToDepth(depth); }
      }
    }
  }

  /** A whole dump and the final flush: the file ends with the rendering of the dump. */
  method DumpToFile(np: Ast, depth: nat, indent: bool, bp: StringBuffer)
    requires bp.Valid() && bp.policy == Flush
    modifies bp, bp.buf
    ensures bp.Valid() && bp.file == old(bp.added) + Render(Dump(np, depth, indent), bp.Ending())
  {
    var out := new Output();
    out.WalkAst(np, depth, indent);
    assert out.calls == Dump(np, depth, indent);
    DeliverAll(out.calls, bp);
    bp.FlushBuffer();
  }

  // ---------------------------------------------------------------- the frame of a file's AST

  /** What is known of one file: its first top-level node, and the lines of its preprocessor AST. */
  datatype FileAst = FileAst(first: Ast, preprocessor: Option<seq<Token>>)

  /** The tokens dump_ast writes for a file; one without nodes gets none. */
  function Framed(f: FileAst, multiple: bool, indent: bool): seq<Token> {
    if f.first.Null? && f.preprocessor.None? then []
    else
      [Name("AST {"), Eol] + (if multiple then [Name("ast_root {"), Eol] else [])
      + Dump(f.first, 1, indent) + (if multiple then [RBrace, Eol] else [])
      + (if f.preprocessor.Some? then f.preprocessor.value else []) + [RBrace, Eol]
  }

  /** The body of the loop of dump_ast */
  method DumpFileAst(f: FileAst, multiple: bool, indent: bool, bp: StringBuffer)
    requires bp.Valid() && bp.policy == Flush
    modifies bp, bp.buf
    ensures bp.Valid() && fresh(bp.live - old(bp.live)) && (bp.buf == old(bp.buf) || fresh(bp.buf))
    ensures bp.added == old(bp.added) + Render(Framed(f, multiple, indent), bp.Ending())
  {
    if f.first.Node? || f.preprocessor.Some? {
      var out := new Output();
      out.WalkFrame(f, multiple, indent);
      DeliverAll(out.calls, bp);
    } else {
      assert bp.added + "" == bp.added;
    }
  }

  /** Every file has an output buffer of its own. */
  ghost predicate Separate(bufs: seq<StringBuffer>)
    reads bufs, set b, l | b in bufs && l in b.live :: l
  {
    && (forall i :: 0 <= i < |bufs| ==> bufs[i].Valid() && bufs[i].policy == Flush)
    && (forall i, j :: 0 <= i < j < |bufs| ==> bufs[i] != bufs[j] && bufs[i].live !! bufs[j].live)
  }

  function FrameText(f: FileAst, multiple: bool, indent: bool, eol: string): string {
    Render(Framed(f, multiple, indent), eol)
  }

  /** The buffers of the first i files have got their frames, on top of the texts they had. */
  ghost predicate Dumped(files: seq<FileAst>, bufs: seq<StringBuffer>, texts: seq<string>, i: nat,
                         multiple: bool, indent: bool)
    reads bufs
  {
    && |files| == |bufs| == |texts|
    && (forall j :: 0 <= j < |bufs| ==>
          bufs[j].added ==
            if j < i then texts[j] + FrameText(files[j], multiple, indent, bufs[j].Ending()) else texts[j])
  }

  /** One round: file i's buffer gets its frame, the others stay as they are. */
  method DumpOne(files: seq<FileAst>, bufs: seq<StringBuffer>, i: nat, multiple: bool, indent: bool,
                 ghost texts: seq<string>)
    requires i < |bufs| && Separate(bufs) && Dumped(files, bufs, texts, i, multiple, indent)
    modifies bufs[i], bufs[i].buf
    ensures Separate(bufs) && Dumped(files, bufs, texts, i + 1, multiple, indent)
    ensures fresh(bufs[i].live - old(bufs[i].live))
  {
    DumpFileAst(files[i], multiple, indent, bufs[i]);
    forall j | 0 <= j < |bufs| && j != i ensures bufs[j].Valid() && bufs[j].live == old(bufs[j].live) {
      assert old(bufs[j].Valid()) && bufs[i] != bufs[j] && old(bufs[i].live) !! old(bufs[j].live);
    }
  }

  /** dump_ast: each buffer gets the frame of its own file, and nothing of another. */
  method DumpAst(files: seq<FileAst>, bufs: seq<StringBuffer>, multiple: bool, indent: bool,
                 ghost texts: seq<string>, ghost blocks: set<array<char>>)
    requires Separate(bufs) && Dumped(files, bufs, texts, 0, multiple, indent)
    requires forall b :: b in bufs ==> b.live <= blocks
    modifies bufs, blocks
    ensures Separate(bufs) && Dumped(files, bufs, texts, |bufs|, multiple, indent)
  {
    var i := 0;
    while i < |bufs|
      invariant 0 <= i <= |bufs| && Separate(bufs) && Dumped(files, bufs, texts, i, multiple, indent)
      invariant forall b :: b in bufs ==> fresh(b.live - blocks)
    {
      DumpOne(files, bufs, i, multiple, indent, texts);
      i := i + 1;
    }
  }
}
