/**
 add_quoted_str_to_string (aset_CCcc/src/SET_additions.c): copies a string, escaping the
 quotes that are not escaped yet, and the exact condition under which the result is one
 well-formed quoted string.
 */
module Quoting {
  import opened Basics
  import opened StringBuffers
  import opened StringRuns

  // ---------------------------------------------------------------- what the code computes

  /** Length of the run of backslashes that ends just before position i. */
  function RunBefore(s: string, i: nat): (r: nat)
    requires i <= |s|
    ensures r <= i
    ensures forall k :: i - r <= k < i ==> s[k] == '\\'
    ensures r < i ==> s[i - r - 1] != '\\'
  {
    if i == 0 || s[i - 1] != '\\' then 0 else 1 + RunBefore(s, i - 1)
  }

  /** What the backward count makes of it: it never looks at the first character of the string. */
  function CountedRun(s: string, i: nat): nat
    requires i <= |s|
  {
    var r := RunBefore(s, i);
    if r == i && r > 0 then r - 1 else r
  }

  /** The output for the first i characters. */
  function Body(s: string, i: nat): string
    requires i <= |s|
  {
    if i == 0 then ""
    else if s[i - 1] == '"' && CountedRun(s, i - 1) % 2 == 0 then Body(s, i - 1) + "\\\""
    else Body(s, i - 1) + [s[i - 1]]
  }

  /** A final odd run, as the code counts it, gets one more backslash. */
  function Tail(s: string): string {
    if CountedRun(s, |s|) % 2 == 1 then "\\" else ""
  }

  function Quoted(s: string): string {
    Body(s, |s|) + Tail(s)
  }

  lemma {:induction false} BodyCopies(s: string, p: nat, q: nat)
    requires p <= q <= |s| && forall k :: p <= k < q ==> s[k] != '"'
    ensures Body(s, q) == Body(s, p) + s[p..q]
    decreases q - p
  {
    if p < q {
      BodyCopies(s, p, q - 1);
      assert s[p..q] == s[p..q - 1] + [s[q - 1]];
    }
  }

  // ---------------------------------------------------------------- the code

  /** The index q at which the loop over the backslashes before position i stops. */
  method RunStart(s: string, i: nat) returns (q: int)
    requires i <= |s|
    ensures -1 <= q < i && i - q - 1 == CountedRun(s, i)
  {
    q := i - 1;
    while q > 0 && s[q] == '\\'
      invariant -1 <= q < i && (i > 0 ==> q >= 0)
      invariant RunBefore(s, i) == i - q - 1 + RunBefore(s, q + 1)
    {
      q := q - 1;
    }
  }

  /** What the code writes for the quote at position i. */
  function EscapedQuote(s: string, i: nat): string
    requires i <= |s|
  {
    if CountedRun(s, i) % 2 == 0 then "\\\"" else "\""
  }

  // ---------------------------------------------------------------- the calls it makes

  /** The calls for a stretch without quotes and the quote behind it */
  function QuotePieces(s: string, p: nat, quote: nat): seq<Piece>
    requires p <= quote <= |s|
  {
    [Text(s[p..quote])] + [Few(EscapedQuote(s, quote))]
  }

  /** The calls for the last stretch, and for the backslash an odd run at its end is given */
  function RestPieces(s: string, p: nat): seq<Piece>
    requires p <= |s|
  {
    [Text(s[p..])] + if CountedRun(s, |s|) % 2 == 1 then [Few("\\")] else []
  }

  /** The calls for the stretch that starts at p, of which i has been reached, and for all behind it */
  function PiecesFrom(s: string, p: nat, i: nat): seq<Piece>
    requires p <= i <= |s|
    decreases |s| - i
  {
    if i == |s| then RestPieces(s, p)
    else if s[i] == '"' then QuotePieces(s, p, i) + PiecesFrom(s, i + 1, i + 1)
    else PiecesFrom(s, p, i + 1)
  }

  function QuotedPieces(s: string, addQuotes: bool): seq<Piece> {
    if addQuotes then [Few("\"")] + (PiecesFrom(s, 0, 0) + [Few("\"")]) else PiecesFrom(s, 0, 0)
  }

  function WithQuotes(text: string, addQuotes: bool): string {
    if addQuotes then "\"" + (text + "\"") else text
  }

  lemma {:induction false} JoinedAppend(a: seq<Piece>, b: seq<Piece>)
    ensures Joined(a + b) == Joined(a) + Joined(b)
    decreases |a|
  {
    if a == [] {
      assert a + b == b;
    } else {
      assert (a + b)[1..] == a[1..] + b;
      JoinedAppend(a[1..], b);
      Regroup(TextOf(a[0]), Joined(a[1..]), Joined(b));
    }
  }

  lemma JoinedOne(p: Piece)
    ensures Joined([p]) == TextOf(p)
  {
    assert [p][1..] == [];
  }

  lemma QuoteJoined(s: string, p: nat, quote: nat)
    requires p <= quote <= |s|
    ensures Joined(QuotePieces(s, p, quote)) == s[p..quote] + EscapedQuote(s, quote)
  {
    JoinedAppend([Text(s[p..quote])], [Few(EscapedQuote(s, quote))]);
    JoinedOne(Text(s[p..quote]));
    JoinedOne(Few(EscapedQuote(s, quote)));
  }

  lemma RestJoined(s: string, p: nat)
    requires p <= |s|
    ensures Joined(RestPieces(s, p)) == s[p..] + Tail(s)
  {
    JoinedOne(Text(s[p..]));
    JoinedOne(Few("\\"));
    if CountedRun(s, |s|) % 2 == 1 {
      JoinedAppend([Text(s[p..])], [Few("\\")]);
    } else {
      assert RestPieces(s, p) == [Text(s[p..])] && s[p..] + "" == s[p..];
    }
  }

  lemma StretchIs(s: string, p: nat, quote: nat)
    requires p <= quote < |s| && s[quote] == '"'
    requires forall k :: p <= k < quote ==> s[k] != '"'
    ensures Body(s, p) + (s[p..quote] + EscapedQuote(s, quote)) == Body(s, quote + 1)
  {
    BodyCopies(s, p, quote);
    Regroup(Body(s, p), s[p..quote], EscapedQuote(s, quote));
  }

  lemma RestIs(s: string, p: nat)
    requires p <= |s| && forall k :: p <= k < |s| ==> s[k] != '"'
    ensures Body(s, p) + (s[p..] + Tail(s)) == Quoted(s)
  {
    BodyCopies(s, p, |s|);
    assert s[p..] == s[p..|s|];
    Regroup(Body(s, p), s[p..], Tail(s));
  }

  predicate NoQuotes(s: string, p: nat, i: nat)
    requires p <= i <= |s|
  {
    forall k :: p <= k < i ==> s[k] != '"'
  }

  lemma EndJoined(s: string, p: nat)
    requires p <= |s| && NoQuotes(s, p, |s|)
    ensures Body(s, p) + Joined(PiecesFrom(s, p, |s|)) == Quoted(s)
  {
    RestJoined(s, p);
    RestIs(s, p);
  }

  lemma RoundJoined(s: string, p: nat, i: nat)
    requires p <= i < |s| && NoQuotes(s, p, i) && s[i] == '"'
    ensures Body(s, p) + Joined(PiecesFrom(s, p, i)) == Body(s, i + 1) + Joined(PiecesFrom(s, i + 1, i + 1))
  {
    var rest := PiecesFrom(s, i + 1, i + 1);
    StretchJoined(s, p, i, rest);
    assert PiecesFrom(s, p, i) == QuotePieces(s, p, i) + rest;
  }

  lemma {:induction false} FromJoined(s: string, p: nat, i: nat)
    requires p <= i <= |s| && NoQuotes(s, p, i)
    ensures Body(s, p) + Joined(PiecesFrom(s, p, i)) == Quoted(s)
    decreases |s| - i
  {
    if i == |s| {
      EndJoined(s, p);
    } else if s[i] == '"' {
      FromJoined(s, i + 1, i + 1);
      RoundJoined(s, p, i);
    } else {
      FromJoined(s, p, i + 1);
    }
  }

  lemma StretchJoined(s: string, p: nat, quote: nat, rest: seq<Piece>)
    requires p <= quote < |s| && s[quote] == '"' && forall k :: p <= k < quote ==> s[k] != '"'
    ensures Body(s, p) + Joined(QuotePieces(s, p, quote) + rest) == Body(s, quote + 1) + Joined(rest)
  {
    QuoteJoined(s, p, quote);
    JoinedAppend(QuotePieces(s, p, quote), rest);
    StretchIs(s, p, quote);
    Regroup(Body(s, p), s[p..quote] + EscapedQuote(s, quote), Joined(rest));
  }

  /** The calls add the quoted text. */
  lemma QuotedJoined(s: string, addQuotes: bool)
    ensures Joined(QuotedPieces(s, addQuotes)) == WithQuotes(Quoted(s), addQuotes)
  {
    FromJoined(s, 0, 0);
    assert "" + Joined(PiecesFrom(s, 0, 0)) == Joined(PiecesFrom(s, 0, 0));
    JoinedOne(Few("\""));
    JoinedAppend(PiecesFrom(s, 0, 0), [Few("\"")]);
    JoinedAppend([Few("\"")], PiecesFrom(s, 0, 0) + [Few("\"")]);
  }

  // ---------------------------------------------------------------- the code on a buffer

  /** Two calls */
  method AddTwo(bp: StringBuffer, p: Piece, q: Piece) returns (ok: bool)
    requires bp.Valid() && Allowed(p) && Allowed(q)
    modifies bp, bp.buf
    ensures Ran(ok, bp, RunPieces(old(Now(bp)), [p] + [q])) && (ok ==> bp.issued == old(bp.issued))
    ensures fresh(bp.live - old(bp.live)) && (bp.buf == old(bp.buf) || fresh(bp.buf))
  {
    RunAppend(Now(bp), [p], [q]);
    RunOne(Now(bp), p);
    ok := AddPiece(bp, p);
    if ok {
      RunOne(Now(bp), q);
      ok := AddPiece(bp, q);
    }
  }

  /** One round of the loop: the text before a quote, then the quote. */
  method AddUpToQuote(str: string, p: nat, quote: nat, bp: StringBuffer) returns (ok: bool)
    requires p <= quote < |str| && bp.Valid()
    modifies bp, bp.buf
    ensures Ran(ok, bp, RunPieces(old(Now(bp)), QuotePieces(str, p, quote))) && (ok ==> bp.issued == old(bp.issued))
    ensures fresh(bp.live - old(bp.live)) && (bp.buf == old(bp.buf) || fresh(bp.buf))
  {
    var q := RunStart(str, quote);
    if (quote - q) % 2 == 1 {
      ok := AddTwo(bp, Text(str[p..quote]), Few("\\\""));
    } else {
      ok := AddTwo(bp, Text(str[p..quote]), Few("\""));
    }
  }

  /** The text after the last quote, and a backslash for an odd run at its end. */
  method AddRest(str: string, p: nat, bp: StringBuffer) returns (ok: bool)
    requires p <= |str| && bp.Valid()
    modifies bp, bp.buf
    ensures Ran(ok, bp, RunPieces(old(Now(bp)), RestPieces(str, p))) && (ok ==> bp.issued == old(bp.issued))
    ensures fresh(bp.live - old(bp.live)) && (bp.buf == old(bp.buf) || fresh(bp.buf))
  {
    var q := |str| - 1;
    var odd := false;
    if q >= 0 && str[q] == '\\' {
      q := RunStart(str, |str|);
      odd := (|str| - q + 1) % 2 == 1;
    }
    if odd {
      ok := AddTwo(bp, Text(str[p..]), Few("\\"));
    } else {
      assert RestPieces(str, p) == [Text(str[p..])];
      RunOne(Now(bp), Text(str[p..]));
      ok := AddPiece(bp, Text(str[p..]));
    }
  }

  /** Where the calls still to be made lead, from position quote of the stretch that starts at p */
  ghost function EndFrom(s: State, str: string, p: nat, quote: nat): Option<State>
    requires Sane(s.geo) && p <= quote <= |str|
  {
    RunPieces(s, PiecesFrom(str, p, quote))
  }

  lemma RoundEnds(s: State, str: string, p: nat, quote: nat)
    requires Sane(s.geo) && p <= quote < |str| && str[quote] == '"'
    ensures var next := RunPieces(s, QuotePieces(str, p, quote));
      EndFrom(s, str, p, quote) == if next.Some? then EndFrom(next.value, str, quote + 1, quote + 1) else None
  {
    RunAppend(s, QuotePieces(str, p, quote), PiecesFrom(str, quote + 1, quote + 1));
  }

  /** The search for the next quote; |s| when there is none. It passes over nothing that makes a call. */
  method FindQuote(s: string, p: nat) returns (quote: nat)
    requires p <= |s|
    ensures p <= quote <= |s| && (quote < |s| ==> s[quote] == '"')
    ensures PiecesFrom(s, p, quote) == PiecesFrom(s, p, p)
  {
    quote := p;
    while quote < |s| && s[quote] != '"'
      invariant p <= quote <= |s|
      invariant PiecesFrom(s, p, quote) == PiecesFrom(s, p, p)
    {
      quote := quote + 1;
    }
  }

  /** One round of the loop, and the search for the next quote */
  method AddRound(str: string, p: nat, quote: nat, bp: StringBuffer) returns (ok: bool, next: nat)
    requires p <= quote < |str| && str[quote] == '"' && bp.Valid()
    modifies bp, bp.buf
    ensures quote < next <= |str| && (next < |str| ==> str[next] == '"')
    ensures ok ==> bp.Valid() && EndFrom(Now(bp), str, quote + 1, next) == old(EndFrom(Now(bp), str, p, quote))
    ensures if ok then bp.issued == old(bp.issued) else old(EndFrom(Now(bp), str, p, quote)).None?
    ensures fresh(bp.live - old(bp.live)) && (bp.buf == old(bp.buf) || fresh(bp.buf))
  {
    RoundEnds(Now(bp), str, p, quote);
    ok := AddUpToQuote(str, p, quote, bp);
    next := FindQuote(str, quote + 1);
  }

  /** Copies every stretch up to a quote, each with its quote. */
  method AddStretches(str: string, bp: StringBuffer) returns (ok: bool, p: nat)
    requires bp.Valid()
    modifies bp, bp.buf
    ensures ok ==> p <= |str| && bp.Valid() && EndFrom(Now(bp), str, p, |str|) == old(EndFrom(Now(bp), str, 0, 0))
    ensures if ok then bp.issued == old(bp.issued) else old(EndFrom(Now(bp), str, 0, 0)).None?
    ensures fresh(bp.live - old(bp.live)) && (bp.buf == old(bp.buf) || fresh(bp.buf))
  {
    ghost var end := EndFrom(Now(bp), str, 0, 0);
    ok, p := true, 0;
    var quote := FindQuote(str, p);
    while ok && quote < |str|
      invariant p <= quote <= |str| && (quote < |str| ==> str[quote] == '"')
      invariant ok ==> bp.Valid() && EndFrom(Now(bp), str, p, quote) == end && bp.issued == old(bp.issued)
      invariant !ok ==> end.None?
      invariant fresh(bp.live - old(bp.live)) && (bp.buf == old(bp.buf) || fresh(bp.buf))
      decreases |str| - p, ok
    {
      var next;
      ok, next := AddRound(str, p, quote, bp);
      p, quote := quote + 1, next;
    }
  }

  /** The stretches, and then the rest */
  method AddBody(str: string, bp: StringBuffer) returns (ok: bool)
    requires bp.Valid()
    modifies bp, bp.buf
    ensures Ran(ok, bp, RunPieces(old(Now(bp)), PiecesFrom(str, 0, 0))) && (ok ==> bp.issued == old(bp.issued))
    ensures fresh(bp.live - old(bp.live)) && (bp.buf == old(bp.buf) || fresh(bp.buf))
  {
    var p;
    ok, p := AddStretches(str, bp);
    if ok { ok := AddRest(str, p, bp); }
  }

  /** The body between two quotes */
  method AddEnclosed(str: string, bp: StringBuffer) returns (ok: bool)
    requires bp.Valid()
    modifies bp, bp.buf
    ensures Ran(ok, bp, RunPieces(old(Now(bp)), QuotedPieces(str, true))) && (ok ==> bp.issued == old(bp.issued))
    ensures fresh(bp.live - old(bp.live)) && (bp.buf == old(bp.buf) || fresh(bp.buf))
  {
    var quote := Few("\"");
    RunAppend(Now(bp), [quote], PiecesFrom(str, 0, 0) + [quote]);
    RunOne(Now(bp), quote);
    ok := AddPiece(bp, quote);
    if ok {
      RunAppend(Now(bp), PiecesFrom(str, 0, 0), [quote]);
      ok := AddBody(str, bp);
      if ok {
        RunOne(Now(bp), quote);
        ok := AddPiece(bp, quote);
      }
    }
  }

  /** On a buffer of any policy: ok tells whether every store stays inside, and then the quoted text is added. */
  method AddQuotedStrToString(str: string, addQuotes: bool, bp: StringBuffer) returns (ok: bool)
    requires bp.Valid()
    modifies bp, bp.buf
    ensures Ran(ok, bp, RunPieces(old(Now(bp)), QuotedPieces(str, addQuotes)))
    ensures var text := if addQuotes then "\"" + (Quoted(str) + "\"") else Quoted(str);
      ok ==> bp.added == old(bp.added) + text && bp.cur == old(bp.cur) + text && bp.issued == old(bp.issued)
    ensures fresh(bp.live - old(bp.live)) && (bp.buf == old(bp.buf) || fresh(bp.buf))
  {
    if addQuotes { ok := AddEnclosed(str, bp); } else { ok := AddBody(str, bp); }
    if ok {
      RunAdds(old(Now(bp)), QuotedPieces(str, addQuotes));
      QuotedJoined(str, addQuotes);
    }
  }

  // ---------------------------------------------------------------- when it fits

  predicate NoNumbers(ps: seq<Piece>) {
    AllAllowed(ps) && forall i :: 0 <= i < |ps| ==> !ps[i].Number?
  }

  /** Calls that make sure of no more than they store keep within bounds if their whole text does. */
  lemma {:induction false} ShortEnough(policy: Policy, bound: nat, unfinished: nat, ps: seq<Piece>)
    requires NoNumbers(ps) && Within(policy, bound, unfinished + |Joined(ps)|)
    ensures PiecesSuit(policy, bound, unfinished, ps)
    decreases |ps|
  {
    if ps != [] { ShortEnough(policy, bound, unfinished + |TextOf(ps[0])|, ps[1..]); }
  }

  lemma {:induction false} FromPlain(s: string, p: nat, i: nat)
    requires p <= i <= |s|
    ensures NoNumbers(PiecesFrom(s, p, i))
    decreases |s| - i
  {
    if i < |s| {
      if s[i] == '"' { FromPlain(s, i + 1, i + 1); } else { FromPlain(s, p, i + 1); }
    }
  }

  /** The result fits if it keeps the unfinished string within bounds, at any length if the buffer flushes. */
  lemma QuotedFits(s: State, str: string, addQuotes: bool)
    requires s.geo.Ok()
    requires Within(s.geo.policy, Bound(s.geo), s.geo.Unfinished() + |WithQuotes(Quoted(str), addQuotes)|)
    ensures RunPieces(s, QuotedPieces(str, addQuotes)).Some?
  {
    var g, ps := s.geo, QuotedPieces(str, addQuotes);
    FromPlain(str, 0, 0);
    QuotedJoined(str, addQuotes);
    ShortEnough(g.policy, Bound(g), g.Unfinished(), ps);
    PiecesWithin(g, s, g.Unfinished(), ps);
  }

  // ---------------------------------------------------------------- what it means

  /** An escape-aware reader between the quotes. */
  datatype Scan = Normal | Escaped | Closed

  function ScanChar(st: Scan, c: char): Scan {
    match st
    case Normal => if c == '\\' then Escaped else if c == '"' then Closed else Normal
    case Escaped => Normal
    case Closed => Closed
  }

  function ScanAll(t: string): Scan {
    if t == "" then Normal else ScanChar(ScanAll(t[..|t| - 1]), t[|t| - 1])
  }

  /** The first i characters of t reach the reader's end, and not before. */
  ghost predicate ClosesAt(t: string, i: nat) {
    i < |t| && ScanAll(t[..i]) != Closed && ScanAll(t[..i + 1]) == Closed
  }

  lemma ScanAppend(t: string, c: char)
    ensures ScanAll(t + [c]) == ScanChar(ScanAll(t), c)
  {
    assert (t + [c])[..|t|] == t;
  }

  /** Length of the run of backslashes at the very start. */
  function LeadingRun(s: string): (r: nat)
    ensures r <= |s| && (r < |s| ==> s[r] != '\\')
    ensures forall k :: 0 <= k < r ==> s[k] == '\\'
  {
    RunEnd(s, 0)
  }

  function RunEnd(s: string, p: nat): (r: nat)
    requires p <= |s|
    ensures p <= r <= |s| && (r < |s| ==> s[r] != '\\')
    ensures forall k :: p <= k < r ==> s[k] == '\\'
    decreases |s| - p
  {
    if p < |s| && s[p] == '\\' then RunEnd(s, p + 1) else p
  }

  /** The run at the start reaches a quote or the end of the string. */
  predicate LeadingRunHits(s: string) {
    var r := LeadingRun(s);
    r > 0 && (r == |s| || s[r] == '"')
  }

  /** The quote that the run at the start reaches lies before position i. */
  predicate HitBefore(s: string, i: nat) {
    0 < LeadingRun(s) < i && LeadingRun(s) < |s| && s[LeadingRun(s)] == '"'
  }

  lemma LeadingRunIsCounted(s: string, i: nat)
    requires i <= |s|
    ensures RunBefore(s, i) == i <==> i <= LeadingRun(s)
    ensures CountedRun(s, i) == if 0 < i <= LeadingRun(s) then i - 1 else RunBefore(s, i)
  {
  }

  /** The reader's state behind a run of backslashes. */
  function ParityScan(run: nat): Scan {
    if run % 2 == 1 then Escaped else Normal
  }

  /** What an escape-aware reader makes of a quote the code wrote, or of any other character. */
  lemma QuoteScan(s: string, i: nat)
    requires i < |s|
    ensures ScanAll(Body(s, i + 1)) ==
            if s[i] == '"' && ParityScan(CountedRun(s, i)) == Normal
            then ScanChar(ScanChar(ScanAll(Body(s, i)), '\\'), '"')
            else ScanChar(ScanAll(Body(s, i)), s[i])
  {
    var b := Body(s, i);
    if s[i] == '"' && CountedRun(s, i) % 2 == 0 {
      ScanAppend(b, '\\');
      ScanAppend(b + "\\", '"');
      assert Body(s, i + 1) == b + "\\" + "\"";
    } else {
      ScanAppend(b, s[i]);
    }
  }

  /** A quote is a hit when the run before it starts the string. */
  lemma HitStep(s: string, i: nat)
    requires i < |s|
    ensures HitBefore(s, i + 1) <==> HitBefore(s, i) || (s[i] == '"' && 0 < i == RunBefore(s, i))
    ensures s[i] == '"' && !HitBefore(s, i + 1) ==> CountedRun(s, i) == RunBefore(s, i)
    ensures s[i] == '"' && 0 < i == RunBefore(s, i) ==> CountedRun(s, i) == RunBefore(s, i) - 1
    ensures RunBefore(s, i + 1) == if s[i] == '\\' then 1 + RunBefore(s, i) else 0
  {
    LeadingRunIsCounted(s, i);
  }

  lemma ParityStep(run: nat)
    ensures ParityScan(run + 1) == if ParityScan(run) == Escaped then Normal else Escaped
  {
  }

  function BodyState(s: string, i: nat): Scan
    requires i <= |s|
  {
    if HitBefore(s, i) then Closed else ParityScan(RunBefore(s, i))
  }

  /** Inside the output the reader is where the parity of the input's run says, until a hit closes it. */
  lemma {:induction false} BodyScan(s: string, i: nat)
    requires i <= |s|
    ensures ScanAll(Body(s, i)) == BodyState(s, i)
  {
    if i > 0 {
      BodyScan(s, i - 1);
      BodyScanStep(s, i - 1);
    }
  }

  lemma BodyScanStep(s: string, i: nat)
    requires i < |s| && ScanAll(Body(s, i)) == BodyState(s, i)
    ensures ScanAll(Body(s, i + 1)) == BodyState(s, i + 1)
  {
    var run := RunBefore(s, i);
    QuoteScan(s, i);
    HitStep(s, i);
    ParityStep(run);
    if run > 0 { ParityStep(run - 1); }
  }

  lemma HitAtEnd(s: string)
    ensures LeadingRunHits(s) <==> HitBefore(s, |s|) || 0 < |s| == RunBefore(s, |s|)
    ensures 0 < |s| == RunBefore(s, |s|) ==> CountedRun(s, |s|) == RunBefore(s, |s|) - 1
    ensures !LeadingRunHits(s) ==> CountedRun(s, |s|) == RunBefore(s, |s|)
  {
    LeadingRunIsCounted(s, |s|);
  }

  /** Between its quotes the output is one complete string exactly when no leading run hits. */
  lemma QuotedScan(s: string)
    ensures ScanAll(Quoted(s)) == Normal <==> !LeadingRunHits(s)
  {
    BodyScan(s, |s|);
    HitAtEnd(s);
    ScanAppend(Body(s, |s|), '\\');
    assert Body(s, |s|) + "" == Body(s, |s|);
  }

  lemma {:induction false} StaysClosed(t: string, i: nat)
    requires i <= |t| && ScanAll(t[..i]) == Closed
    ensures ScanAll(t) == Closed
    decreases |t| - i
  {
    if i == |t| {
      assert t[..i] == t;
    } else {
      assert t[..i + 1] == t[..i] + [t[i]];
      ScanAppend(t[..i], t[i]);
      StaysClosed(t, i + 1);
    }
  }

  /** The first unescaped quote after the opening one is the closing one. */
  lemma WellFormedIff(s: string)
    ensures ClosesAt(Quoted(s) + "\"", |Quoted(s)|) <==> !LeadingRunHits(s)
  {
    QuotedScan(s);
    var b := Quoted(s);
    assert (b + "\"")[..|b|] == b && (b + "\"")[..|b| + 1] == b + "\"";
    ScanAppend(b, '"');
  }

  /** A backslash alone is not doubled, and takes the closing quote with it. */
  lemma LoneBackslashTakesTheQuote()
    ensures Quoted("\\") == "\\" && LeadingRunHits("\\")
    ensures !ClosesAt(Quoted("\\") + "\"", |Quoted("\\")|)
  {
    assert CountedRun("\\", 1) == 0;
    assert Body("\\", 0) == "";
    WellFormedIff("\\");
  }

  // ---------------------------------------------------------------- nothing is lost

  /** t is s with backslashes inserted. */
  ghost predicate OnlyBackslashesAdded(s: string, t: string)
    decreases |t|
  {
    if t == "" then s == ""
    else
      var init, last := t[..|t| - 1], t[|t| - 1];
      || (s != "" && s[|s| - 1] == last && OnlyBackslashesAdded(s[..|s| - 1], init))
      || (last == '\\' && OnlyBackslashesAdded(s, init))
  }

  lemma {:induction false} BodyAdds(s: string, i: nat)
    requires i <= |s|
    ensures OnlyBackslashesAdded(s[..i], Body(s, i))
  {
    if i > 0 {
      BodyAdds(s, i - 1);
      assert s[..i][..i - 1] == s[..i - 1];
      var b := Body(s, i - 1);
      if Body(s, i) == b + "\\\"" {
        assert Body(s, i)[..|b| + 1] == b + "\\" && (b + "\\")[..|b|] == b;
      } else {
        assert Body(s, i)[..|b|] == b;
      }
    }
  }

  lemma QuotedAdds(s: string)
    ensures OnlyBackslashesAdded(s, Quoted(s))
  {
    BodyAdds(s, |s|);
    assert s[..|s|] == s;
    if Tail(s) != "" {
      assert Quoted(s)[..|Body(s, |s|)|] == Body(s, |s|);
    } else {
      assert Quoted(s) == Body(s, |s|);
    }
  }

  lemma {:induction false} EscapedCopied(s: string, i: nat)
    requires i <= |s| && !HitBefore(s, i) && ScanAll(s[..i]) != Closed
    ensures Body(s, i) == s[..i]
  {
    if i > 0 {
      assert s[..i] == s[..i - 1] + [s[i - 1]];
      ScanAppend(s[..i - 1], s[i - 1]);
      EscapedCopied(s, i - 1);
      BodyScan(s, i - 1);
      HitStep(s, i - 1);
    }
  }

  /** A body that is well escaped already is copied unchanged. */
  lemma WellEscapedUnchanged(s: string)
    requires ScanAll(s) == Normal && !LeadingRunHits(s)
    ensures Quoted(s) == s
  {
    assert s[..|s|] == s;
    EscapedCopied(s, |s|);
    BodyScan(s, |s|);
    HitAtEnd(s);
  }
}
