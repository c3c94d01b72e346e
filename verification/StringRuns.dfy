/**
 Whole runs of one string buffer: many strings, each made of many pieces, by any of the three
 policies (aset_CCcc/src/SET_additions.c). A run reports exactly whether all its stores stay
 inside the block, and that they do when no string is too long.
 */
module StringRuns {
  import opened Basics
  import opened StringBuffers

  /** One call of the add_ functions: text of any length, one to three characters, or a number. */
  datatype Piece = Text(s: string) | Few(s: string) | Number(num: nat, pre: string, post: string)

  /** The caller's side of the fixed-length functions */
  predicate Allowed(p: Piece) {
    match p
    case Text(_) => true
    case Few(s) => 1 <= |s| <= 3
    case Number(num, pre, post) => |pre + Printed(num) + post| <= 32
  }

  predicate AllAllowed(ps: seq<Piece>) {
    forall i :: 0 <= i < |ps| ==> Allowed(ps[i])
  }

  function TextOf(p: Piece): string {
    if p.Number? then p.pre + Printed(p.num) + p.post else p.s
  }

  /** The bytes a call makes sure of: 32 for a number. */
  function Need(p: Piece): nat {
    if p.Number? then 32 else |p.s|
  }

  /** What the calls add */
  function Joined(ps: seq<Piece>): string {
    if ps == [] then "" else TextOf(ps[0]) + Joined(ps[1..])
  }

  function Whole(ps: seq<Piece>, ending: string): string {
    Joined(ps) + ending
  }

  // ---------------------------------------------------------------- runs on paper

  predicate Sane(g: Geometry) {
    g.cur <= g.next && g.size > 0 && g.initSize > 0
  }

  /** The state of a buffer between two calls, as far as the calls decide it */
  datatype State = State(geo: Geometry, added: string, cur: string)

  /** The state after one call, unless its store does not stay inside the block */
  ghost function RunPiece(s: State, p: Piece): (t: Option<State>)
    requires Sane(s.geo)
    ensures t.Some? ==> Sane(t.value.geo)
  {
    var text := TextOf(p);
    if p.Text? then
      DoubledFits(s.geo.Overflow(), |text|);
      if s.geo.Roomy(|text|) then Some(State(s.geo.Longer(|text|), s.added + text, s.cur + text)) else None
    else if s.geo.RoomyFew(Need(p), |text|) then
      Some(State(s.geo.LongerFew(Need(p), |text|), s.added + text, s.cur + text))
    else None
  }

  ghost function RunPieces(s: State, ps: seq<Piece>): (t: Option<State>)
    requires Sane(s.geo)
    ensures t.Some? ==> Sane(t.value.geo)
    decreases |ps|
  {
    if ps == [] then Some(s)
    else
      var next := RunPiece(s, ps[0]);
      if next.Some? then RunPieces(next.value, ps[1..]) else None
  }

  /** A string: its pieces, and the terminator behind them */
  ghost function RunString(s: State, ps: seq<Piece>, ending: string): (t: Option<State>)
    requires Sane(s.geo)
    ensures t.Some? ==> Sane(t.value.geo)
  {
    var next := RunPieces(s, ps);
    if next.None? || !next.value.geo.RoomyFew(|ending|, |ending|) then None
    else
      var g := next.value.geo.LongerFew(|ending|, |ending|);
      Some(State(g.(cur := g.next), next.value.added + ending, ""))
  }

  ghost function RunStrings(s: State, strings: seq<seq<Piece>>, ending: string): (t: Option<State>)
    requires Sane(s.geo)
    ensures t.Some? ==> Sane(t.value.geo)
    decreases |strings|
  {
    if strings == [] then Some(s)
    else
      var next := RunString(s, strings[0], ending);
      if next.Some? then RunStrings(next.value, strings[1..], ending) else None
  }

  lemma {:induction false} RunAppend(s: State, a: seq<Piece>, b: seq<Piece>)
    requires Sane(s.geo)
    ensures RunPieces(s, a + b) == if RunPieces(s, a).Some? then RunPieces(RunPieces(s, a).value, b) else None
    decreases |a|
  {
    if a == [] {
      assert a + b == b;
    } else {
      assert (a + b)[1..] == a[1..] + b;
      var next := RunPiece(s, a[0]);
      if next.Some? { RunAppend(next.value, a[1..], b); }
    }
  }

  lemma RunOne(s: State, p: Piece)
    requires Sane(s.geo)
    ensures RunPieces(s, [p]) == RunPiece(s, p)
  {
    assert [p][1..] == [];
  }

  /** A run adds the texts of its pieces. */
  lemma {:induction false} RunAdds(s: State, ps: seq<Piece>)
    requires Sane(s.geo) && RunPieces(s, ps).Some?
    ensures var t := RunPieces(s, ps).value; t.added == s.added + Joined(ps) && t.cur == s.cur + Joined(ps)
    decreases |ps|
  {
    if ps != [] {
      RunAdds(RunPiece(s, ps[0]).value, ps[1..]);
      Regroup(s.added, TextOf(ps[0]), Joined(ps[1..]));
      Regroup(s.cur, TextOf(ps[0]), Joined(ps[1..]));
    }
  }

  function AllStrings(strings: seq<seq<Piece>>, ending: string): string {
    if strings == [] then "" else Whole(strings[0], ending) + AllStrings(strings[1..], ending)
  }

  lemma {:induction false} RunAddsStrings(s: State, strings: seq<seq<Piece>>, ending: string)
    requires Sane(s.geo) && RunStrings(s, strings, ending).Some?
    ensures RunStrings(s, strings, ending).value.added == s.added + AllStrings(strings, ending)
    decreases |strings|
  {
    if strings != [] {
      RunAdds(s, strings[0]);
      RunAddsStrings(RunString(s, strings[0], ending).value, strings[1..], ending);
      Regroup(s.added, Joined(strings[0]), ending);
      Regroup(s.added, Whole(strings[0], ending), AllStrings(strings[1..], ending));
    }
  }

  // ---------------------------------------------------------------- strings that are not too long

  /** What may stand unfinished: less than a new block, or half of the present one if the buffer wraps. */
  predicate Within(policy: Policy, bound: nat, length: nat) {
    match policy
    case Flush => true
    case Wrap => length <= (bound - 1) / 2
    case Heap => length < bound
  }

  /** A heap buffer may go back to its initial size; a wrapping one never shrinks. */
  function Bound(g: Geometry): nat {
    if g.policy == Wrap then g.size else g.initSize
  }

  /** Behind unfinished bytes, every call keeps the string, with the bytes it makes sure of, within bounds. */
  predicate PiecesSuit(policy: Policy, bound: nat, unfinished: nat, ps: seq<Piece>)
    decreases |ps|
  {
    ps == []
    || (Allowed(ps[0]) && Within(policy, bound, unfinished + Need(ps[0]))
        && PiecesSuit(policy, bound, unfinished + |TextOf(ps[0])|, ps[1..]))
  }

  predicate Suits(policy: Policy, bound: nat, ps: seq<Piece>, ending: string) {
    PiecesSuit(policy, bound, 0, ps) && Within(policy, bound, |Joined(ps)| + |ending|)
  }

  predicate AllSuit(policy: Policy, bound: nat, strings: seq<seq<Piece>>, ending: string) {
    forall i :: 0 <= i < |strings| ==> Suits(policy, bound, strings[i], ending)
  }

  /** h is a state of g's buffer with this much unfinished and no smaller bound. */
  ghost predicate Holding(g: Geometry, h: Geometry, unfinished: nat) {
    && h.Ok() && h.policy == g.policy && Bound(h) >= Bound(g)
    && (g.policy != Flush ==> h.Unfinished() == unfinished)
  }

  /** A call that keeps within bounds stays inside the block. */
  lemma RoomWithin(g: Geometry, h: Geometry, unfinished: nat, len: nat, stored: nat)
    requires Holding(g, h, unfinished) && Within(g.policy, Bound(g), unfinished + len) && stored <= len
    ensures h.Roomy(len) && Holding(g, h.Longer(len), unfinished + len)
    ensures len <= 32 ==> h.RoomyFew(len, stored) && Holding(g, h.LongerFew(len, stored), unfinished + stored)
  {
    match g.policy {
      case Flush => FlushAlwaysRoomy(h, len);
      case Wrap => WrapRoomy(h, len);
      case Heap => HeapRoomy(h, len);
    }
    RoomyIff(h, len);
    DoubledFits(h.Overflow(), len);
  }

  lemma PieceWithin(g: Geometry, s: State, unfinished: nat, p: Piece)
    requires Holding(g, s.geo, unfinished) && Allowed(p) && Within(g.policy, Bound(g), unfinished + Need(p))
    ensures RunPiece(s, p).Some? && Holding(g, RunPiece(s, p).value.geo, unfinished + |TextOf(p)|)
  {
    RoomWithin(g, s.geo, unfinished, Need(p), |TextOf(p)|);
  }

  lemma {:induction false} PiecesWithin(g: Geometry, s: State, unfinished: nat, ps: seq<Piece>)
    requires Holding(g, s.geo, unfinished) && PiecesSuit(g.policy, Bound(g), unfinished, ps)
    ensures RunPieces(s, ps).Some? && Holding(g, RunPieces(s, ps).value.geo, unfinished + |Joined(ps)|)
    decreases |ps|
  {
    if ps != [] {
      PieceWithin(g, s, unfinished, ps[0]);
      PiecesWithin(g, RunPiece(s, ps[0]).value, unfinished + |TextOf(ps[0])|, ps[1..]);
    }
  }

  lemma StringWithin(g: Geometry, s: State, ps: seq<Piece>, ending: string)
    requires Holding(g, s.geo, 0) && Suits(g.policy, Bound(g), ps, ending) && |ending| <= 32
    ensures RunString(s, ps, ending).Some? && Holding(g, RunString(s, ps, ending).value.geo, 0)
  {
    PiecesWithin(g, s, 0, ps);
    RoomWithin(g, RunPieces(s, ps).value.geo, |Joined(ps)|, |ending|, |ending|);
  }

  /** Whatever the state of the buffer between two strings: strings that are not too long all fit. */
  lemma {:induction false} StringsWithin(g: Geometry, s: State, strings: seq<seq<Piece>>, ending: string)
    requires Holding(g, s.geo, 0) && AllSuit(g.policy, Bound(g), strings, ending) && |ending| <= 32
    ensures RunStrings(s, strings, ending).Some?
    decreases |strings|
  {
    if strings != [] {
      StringWithin(g, s, strings[0], ending);
      StringsWithin(g, RunString(s, strings[0], ending).value, strings[1..], ending);
    }
  }

  // ---------------------------------------------------------------- the runs

  ghost function Now(bp: StringBuffer): (s: State)
    requires bp.Valid()
    reads bp, bp.live
    ensures Sane(s.geo)
  {
    State(bp.Geo(), bp.added, bp.cur)
  }

  /** ok tells whether the run on paper succeeds, and if so the buffer is where it ends. */
  ghost predicate Ran(ok: bool, bp: StringBuffer, end: Option<State>)
    reads bp, bp.live
  {
    ok == end.Some? && (ok ==> bp.Valid() && Now(bp) == end.value)
  }

  /** The call for a piece: ok tells whether its store stays inside. */
  method AddPiece(bp: StringBuffer, p: Piece) returns (ok: bool)
    requires bp.Valid() && Allowed(p)
    modifies bp, bp.buf
    ensures Ran(ok, bp, RunPiece(old(Now(bp)), p)) && (ok ==> bp.issued == old(bp.issued))
    ensures fresh(bp.live - old(bp.live)) && (bp.buf == old(bp.buf) || fresh(bp.buf))
  {
    match p {
      case Text(s) => ok := bp.AddToStringWithLen(s);
      case Few(s) => ok := bp.AddChars(s);
      case Number(num, pre, post) => ok := bp.AddNumToString(num, pre, post);
    }
  }

  method AddPieces(bp: StringBuffer, pieces: seq<Piece>) returns (ok: bool)
    requires bp.Valid() && AllAllowed(pieces)
    modifies bp, bp.buf
    ensures Ran(ok, bp, RunPieces(old(Now(bp)), pieces)) && (ok ==> bp.issued == old(bp.issued))
    ensures fresh(bp.live - old(bp.live)) && (bp.buf == old(bp.buf) || fresh(bp.buf))
  {
    ok := true;
    if pieces != [] {
      ok := AddPiece(bp, pieces[0]);
      if ok { ok := AddPieces(bp, pieces[1..]); }
    }
  }

  /** The pointer start into the block points to the text. */
  predicate Holds(block: array<char>, start: nat, text: string)
    reads block
  {
    start + |text| <= block.Length && block[start..start + |text|] == text
  }

  /** One string, piece by piece, and its terminator; ok tells whether every store stays inside. */
  method AddString(bp: StringBuffer, pieces: seq<Piece>) returns (ok: bool, block: array<char>, start: nat)
    requires bp.Valid() && bp.cur == [] && AllAllowed(pieces)
    modifies bp, bp.buf
    ensures Ran(ok, bp, RunString(old(Now(bp)), pieces, bp.Ending())) && (ok ==> bp.cur == [])
    ensures ok ==> bp.added == old(bp.added) + Whole(pieces, bp.Ending())
    ensures ok && bp.policy != Flush ==> Holds(block, start, Joined(pieces))
    ensures ok && bp.policy == Heap ==>
              bp.issued == old(bp.issued) + [Issued(block, start, Whole(pieces, bp.Ending()))]
    ensures fresh(bp.live - old(bp.live)) && (bp.buf == old(bp.buf) || fresh(bp.buf))
  {
    block, start := bp.buf, 0;
    ok := AddPieces(bp, pieces);
    if ok {
      RunAdds(old(Now(bp)), pieces);
      assert bp.cur == Joined(pieces);
      ok, block, start := bp.TerminateString();
      Regroup(old(bp.added), Joined(pieces), bp.Ending());
    }
  }

  /** What ends a string in a file or a block: '\r' stands for both characters of a line end. */
  function LineEnd(terminator: char): (end: string)
    ensures terminator != '\r' ==> end == [terminator]
    ensures terminator == '\r' ==> end == ['\r', '\n']
  {
    if terminator == '\r' then "\r\n" else [terminator]
  }

  lemma LineEndIs(bp: StringBuffer)
    ensures bp.Ending() == LineEnd(bp.terminator)
  {
  }

  /** Behind the strings issued earlier stand exactly these, in order. */
  ghost predicate InOrder(earlier: seq<Issued>, later: seq<Issued>, strings: seq<seq<Piece>>, ending: string) {
    && earlier <= later && |later| == |earlier| + |strings|
    && forall k :: 0 <= k < |strings| ==> later[|earlier| + k].text == Whole(strings[k], ending)
  }

  /** The same, for one string and those behind it */
  lemma IssuedInOrder(earlier: seq<Issued>, s: Issued, later: seq<Issued>, strings: seq<seq<Piece>>, ending: string)
    requires strings != [] && s.text == Whole(strings[0], ending) && InOrder(earlier + [s], later, strings[1..], ending)
    ensures InOrder(earlier, later, strings, ending)
  {
    assert earlier <= earlier + [s] && later[|earlier|] == (earlier + [s])[|earlier|] == s;
    forall k | 0 <= k < |strings| ensures later[|earlier| + k].text == Whole(strings[k], ending) {
      if k > 0 { assert later[|earlier + [s]| + (k - 1)].text == Whole(strings[1..][k - 1], ending); }
    }
  }

  predicate AllStringsAllowed(strings: seq<seq<Piece>>) {
    forall i :: 0 <= i < |strings| ==> AllAllowed(strings[i])
  }

  /** Any number of strings */
  method AddStrings(bp: StringBuffer, strings: seq<seq<Piece>>) returns (ok: bool)
    requires bp.Valid() && bp.cur == [] && AllStringsAllowed(strings)
    modifies bp, bp.buf
    ensures Ran(ok, bp, RunStrings(old(Now(bp)), strings, bp.Ending())) && (ok ==> bp.cur == [])
    ensures ok && bp.policy == Heap ==> InOrder(old(bp.issued), bp.issued, strings, bp.Ending())
    ensures fresh(bp.live - old(bp.live)) && (bp.buf == old(bp.buf) || fresh(bp.buf))
  {
    ok := true;
    if strings != [] {
      var block, start;
      ok, block, start := AddString(bp, strings[0]);
      if ok {
        ghost var s := Issued(block, start, Whole(strings[0], bp.Ending()));
        ok := AddStrings(bp, strings[1..]);
        if ok && bp.policy == Heap { IssuedInOrder(old(bp.issued), s, bp.issued, strings, bp.Ending()); }
      }
    }
  }

  /** An issued string is what it was when issued, in a block that has not been freed. */
  ghost predicate Kept(bp: StringBuffer, s: Issued)
    reads bp, s.block
  {
    s.block in bp.live && Intact(s)
  }

  lemma IssuedAreKept(bp: StringBuffer)
    requires bp.Valid() && bp.policy == Heap
    ensures forall s :: s in bp.issued ==> Kept(bp, s)
  {
    forall s | s in bp.issued ensures Kept(bp, s) {
      assert bp.Safe(s);
    }
  }

  /**
   A heap buffer: ok tells whether every store stays inside, and then every string the buffer has
   issued, now or before, is still what it was when issued, in a block that has not been freed.
   */
  method BuildStrings(bp: StringBuffer, strings: seq<seq<Piece>>) returns (ok: bool)
    requires bp.Valid() && bp.cur == [] && bp.policy == Heap && AllStringsAllowed(strings)
    modifies bp, bp.buf
    ensures Ran(ok, bp, RunStrings(old(Now(bp)), strings, bp.Ending())) && (ok ==> bp.cur == [])
    ensures ok ==> InOrder(old(bp.issued), bp.issued, strings, LineEnd(bp.terminator))
    ensures ok ==> forall s :: s in bp.issued ==> Kept(bp, s)
  {
    LineEndIs(bp);
    ok := AddStrings(bp, strings);
    if ok { IssuedAreKept(bp); }
  }

  /** No call of a flushing buffer is ever too long. */
  lemma {:induction false} FlushSuits(bound: nat, unfinished: nat, ps: seq<Piece>)
    requires AllAllowed(ps)
    ensures PiecesSuit(Flush, bound, unfinished, ps)
    decreases |ps|
  {
    if ps != [] { FlushSuits(bound, unfinished + |TextOf(ps[0])|, ps[1..]); }
  }

  /** A flushing buffer and the final flush: the file holds every string in order. */
  method WriteStrings(bp: StringBuffer, strings: seq<seq<Piece>>)
    requires bp.Valid() && bp.cur == [] && bp.policy == Flush && AllStringsAllowed(strings)
    modifies bp, bp.buf
    ensures bp.Valid() && bp.file == old(bp.added) + AllStrings(strings, LineEnd(bp.terminator))
  {
    LineEndIs(bp);
    ghost var g, bound := bp.Geo(), Bound(bp.Geo());
    forall i | 0 <= i < |strings| ensures Suits(g.policy, bound, strings[i], bp.Ending()) {
      FlushSuits(bound, 0, strings[i]);
    }
    StringsWithin(g, Now(bp), strings, bp.Ending());
    RunAddsStrings(Now(bp), strings, bp.Ending());
    var ok := AddStrings(bp, strings);
    bp.FlushBuffer();
  }
}
