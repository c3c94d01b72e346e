/**
 The command-line normaliser of options_filter/option_filter.cxx: a streaming state
 machine that turns every option marker into '-', and glues an argument to the option
 that takes it.  Characters are the bytes of the stream; buffers are sequences.
 */
module OptionFilter {
  import Basics

  /** isspace in the C locale. */
  predicate IsSpace(c: char) {
    c == ' ' || c == '\t' || c == '\n' || c == '\r' || c == 11 as char || c == 12 as char
  }

  predicate IsMarker(c: char) {
    c == '/' || c == '-'
  }

  // ---------------------------------------------------------------- the option table

  datatype Option = Option(option: string, numArgs: int)

  /** The argument count of the first entry spelled name, or -1. */
  function Lookup(options: seq<Option>, name: string): int {
    if options == [] then -1
    else if options[0].option == name then options[0].numArgs
    else Lookup(options[1..], name)
  }

  /** The first position from p on that does not hold white space. */
  function SpacesEnd(line: string, p: nat): (q: nat)
    requires p <= |line|
    ensures p <= q <= |line| && (q == |line| || !IsSpace(line[q]))
    ensures forall i :: p <= i < q ==> IsSpace(line[i])
    decreases |line| - p
  {
    if p < |line| && IsSpace(line[p]) then SpacesEnd(line, p + 1) else p
  }

  /** The first position from p on that ends a word. */
  function WordEnd(line: string, p: nat): (q: nat)
    requires p <= |line|
    ensures p <= q <= |line| && (q == |line| || IsSpace(line[q]))
    ensures forall i :: p <= i < q ==> !IsSpace(line[i])
    decreases |line| - p
  {
    if p < |line| && !IsSpace(line[p]) then WordEnd(line, p + 1) else p
  }

  predicate IsDigit(c: char) {
    '0' <= c <= '9'
  }

  function Digits(s: string, acc: nat): nat
    decreases |s|
  {
    if s != [] && IsDigit(s[0]) then Digits(s[1..], 10 * acc + (s[0] - '0') as nat) else acc
  }

  function Atoi(s: string): int {
    var t := s[SpacesEnd(s, 0)..];
    if t == [] then 0
    else if t[0] == '-' then -(Digits(t[1..], 0) as int)
    else if t[0] == '+' then Digits(t[1..], 0)
    else Digits(t, 0)
  }

  /** A description line: the first word, then a count read by atoi (0 when absent). */
  function ParseLine(line: string): Option {
    var p := SpacesEnd(line, 0);
    var q := WordEnd(line, p);
    var r := SpacesEnd(line, q);
    Option(line[p..q], if r == |line| then 0 else Atoi(line[r..]))
  }

  /** An executable's option list, extended in place. */
  class ExecOptions {
    var options: seq<Option>

    constructor ()
      ensures options == []
    {
      options := [];
    }

    method AddOption(opt: string, numArgs: int)
      modifies this
      ensures options == old(options) + [Option(opt, numArgs)]
    {
      options := options + [Option(opt, numArgs)];
    }

    method MatchOption(buf: string) returns (n: int)
      ensures n == Lookup(options, buf)
    {
      var cur := 0;
      while cur < |options|
        invariant 0 <= cur <= |options|
        invariant Lookup(options, buf) == Lookup(options[cur..], buf)
      {
        if options[cur].option == buf {
          return options[cur].numArgs;
        }
        cur := cur + 1;
      }
      return -1;
    }

    method ReadSingleOption(line: string)
      modifies this
      ensures options == old(options) + [ParseLine(line)]
    {
      var p := 0;
      while p < |line| && IsSpace(line[p])
        invariant 0 <= p <= |line|
        invariant SpacesEnd(line, 0) == SpacesEnd(line, p)
      {
        p := p + 1;
      }
      var opt := "";
      ghost var start := p;
      while p < |line| && !IsSpace(line[p])
        invariant start <= p <= |line| && opt == line[start..p]
        invariant WordEnd(line, start) == WordEnd(line, p)
      {
        opt := opt + [line[p]];
        p := p + 1;
      }
      ghost var end := p;
      var numArgs := 0;
      if p < |line| {
        while p < |line| && IsSpace(line[p])
          invariant end <= p <= |line|
          invariant SpacesEnd(line, end) == SpacesEnd(line, p)
        {
          p := p + 1;
        }
        if p < |line| {
          numArgs := Atoi(line[p..]);
        }
      }
      AddOption(opt, numArgs);
    }
  }

  /** A table filled by ReadSingleOption from a list of description lines. */
  function TableOf(lines: seq<string>): seq<Option> {
    if lines == [] then [] else [ParseLine(lines[0])] + TableOf(lines[1..])
  }

  /** A blank line is the only one that defines the empty option, and it carries no count. */
  lemma {:induction false} TableHasNoArgumentForEmpty(lines: seq<string>)
    ensures Lookup(TableOf(lines), "") <= 0
  {
    if lines != [] {
      TableHasNoArgumentForEmpty(lines[1..]);
      assert TableOf(lines)[1..] == TableOf(lines[1..]);
    }
  }

  // ---------------------------------------------------------------- the state machine

  /** state, sub_state and buffer of the loop; READING_FIRST_CHAR never survives a character. */
  datatype State = SkippingSpaces | ReadingOption(buffer: string) | SkippingWord(quoted: bool) | StartReadingArgument

  /** The state after one character. */
  function Next(t: seq<Option>, s: State, ch: char): State {
    match s
    case SkippingSpaces =>
      if IsSpace(ch) then SkippingSpaces else if IsMarker(ch) then ReadingOption("") else SkippingWord(ch == '"')
    case SkippingWord(q) =>
      if IsSpace(ch) && !q then SkippingSpaces else SkippingWord(if ch == '"' then !q else q)
    case ReadingOption(b) =>
      if IsSpace(ch) then
        if Lookup(t, b) > 0 then StartReadingArgument else SkippingSpaces
      else
        var n := Lookup(t, b + [ch]);
        if n == 0 then SkippingWord(false) else if n > 0 then StartReadingArgument else ReadingOption(b + [ch])
    case StartReadingArgument =>
      if IsSpace(ch) then StartReadingArgument else if IsMarker(ch) then ReadingOption("") else SkippingWord(ch == '"')
  }

  /** What one character makes the filter write. */
  function Emit(t: seq<Option>, s: State, ch: char): string {
    match s
    case SkippingSpaces => if IsMarker(ch) then "-" else [ch]
    case SkippingWord(_) => [ch]
    case ReadingOption(b) => if IsSpace(ch) && Lookup(t, b) > 0 then "" else [ch]
    case StartReadingArgument => if IsSpace(ch) then "" else if IsMarker(ch) then " -" else [ch]
  }

  function After(t: seq<Option>, s: State, input: string): State
    decreases |input|
  {
    if input == [] then s else After(t, Next(t, s, input[0]), input[1..])
  }

  function Output(t: seq<Option>, s: State, input: string): string
    decreases |input|
  {
    if input == [] then "" else Emit(t, s, input[0]) + Output(t, Next(t, s, input[0]), input[1..])
  }

  function Filter(t: seq<Option>, input: string): string {
    Output(t, SkippingSpaces, input)
  }

  datatype Phase = SKIPPING_SPACES | READING_FIRST_CHAR | READING_OPTION | SKIPPING_WORD | START_READING_ARGUMENT

  /** The abstract state the loop variables stand for. */
  ghost predicate Stands(state: Phase, quoted: bool, buffer: string, s: State) {
    // the quote flag is set only while a word is being skipped
    && (quoted ==> state == SKIPPING_WORD)
    && match state
       case SKIPPING_SPACES => s == SkippingSpaces
       case READING_FIRST_CHAR => false
       case READING_OPTION => s == ReadingOption(buffer)
       case SKIPPING_WORD => s == SkippingWord(quoted)
       case START_READING_ARGUMENT => s == StartReadingArgument
  }

  /** The body of the loop of ReadOptions, branch by branch; a return is the source's continue. */
  method ReadChar(exec: ExecOptions, ghost s: State, state0: Phase, quoted0: bool, buffer0: string, ch: char)
    returns (state: Phase, quoted: bool, buffer: string, output: string)
    requires Stands(state0, quoted0, buffer0, s)
    ensures Stands(state, quoted, buffer, Next(exec.options, s, ch))
    ensures output == Emit(exec.options, s, ch)
  {
    state, quoted, buffer, output := state0, quoted0, buffer0, "";
    if state == SKIPPING_SPACES {
      if !IsSpace(ch) { state := READING_FIRST_CHAR; } else { output := [ch]; }
    }
    if state == READING_FIRST_CHAR {
      if IsMarker(ch) {
        output := "-";
        state, buffer := READING_OPTION, "";
        return;
      } else {
        state := SKIPPING_WORD;
      }
    }
    if state == SKIPPING_WORD {
      output := [ch];
      if IsSpace(ch) && !quoted { state := SKIPPING_SPACES; }
      if ch == '"' { quoted := !quoted; }
    }
    if state == READING_OPTION {
      if IsSpace(ch) {
        var numArg := exec.MatchOption(buffer);
        if numArg <= 0 { output := [ch]; state := SKIPPING_SPACES; }
        if numArg > 0 { state := START_READING_ARGUMENT; }
      } else {
        output := [ch];
        buffer := buffer + [ch];
        var numArg := exec.MatchOption(buffer);
        if numArg == 0 { state := SKIPPING_WORD; }
        if numArg > 0 { state := START_READING_ARGUMENT; }
      }
      return;
    }
    if state == START_READING_ARGUMENT {
      if IsSpace(ch) { return; }
      if IsMarker(ch) {
        output := " " + "-";
        state, buffer := READING_OPTION, "";
        return;
      }
      output := [ch];
      if ch == '"' { quoted := !quoted; }
      state := SKIPPING_WORD;
    }
  }

  method ReadOptions(exec: ExecOptions, input: string) returns (output: string)
    ensures output == Filter(exec.options, input)
  {
    var state, quoted, buffer := SKIPPING_SPACES, false, "";
    ghost var s := SkippingSpaces;
    output := "";
    var i := 0;
    while i < |input|
      invariant 0 <= i <= |input|
      invariant Stands(state, quoted, buffer, s)
      invariant Filter(exec.options, input) == output + Output(exec.options, s, input[i..])
    {
      var out;
      state, quoted, buffer, out := ReadChar(exec, s, state, quoted, buffer, input[i]);
      assert input[i..][1..] == input[i + 1..];
      output := output + out;
      s := Next(exec.options, s, input[i]);
      i := i + 1;
    }
  }

  // ---------------------------------------------------------------- idempotence

  lemma {:induction false} RunAppend(t: seq<Option>, s: State, a: string, b: string)
    ensures After(t, s, a + b) == After(t, After(t, s, a), b)
    ensures Output(t, s, a + b) == Output(t, s, a) + Output(t, After(t, s, a), b)
    decreases |a|
  {
    if a == [] {
      assert a + b == b;
    } else {
      assert (a + b)[0] == a[0] && (a + b)[1..] == a[1..] + b;
      var next := Next(t, s, a[0]);
      RunAppend(t, next, a[1..], b);
      Basics.Regroup(Emit(t, s, a[0]), Output(t, next, a[1..]), Output(t, After(t, s, a), b));
    }
  }

  lemma RunOne(t: seq<Option>, s: State, c: char)
    ensures After(t, s, [c]) == Next(t, s, c) && Output(t, s, [c]) == Emit(t, s, c)
  {
    assert [c][1..] == "";
  }

  /** A state the loop can be in: an unfinished option name is either empty or unknown. */
  predicate Plausible(t: seq<Option>, s: State) {
    s.ReadingOption? ==> s.buffer == "" || Lookup(t, s.buffer) < 0
  }

  /** What one step writes, read from the same state, leads to the same state and is written again. */
  lemma StepReplays(t: seq<Option>, s: State, ch: char)
    requires Lookup(t, "") <= 0 && Plausible(t, s)
    ensures var o := Emit(t, s, ch); After(t, s, o) == Next(t, s, ch) && Output(t, s, o) == o
    ensures Plausible(t, Next(t, s, ch))
  {
    var o := Emit(t, s, ch);
    if |o| == 1 {
      RunOne(t, s, o[0]);
      assert o == [o[0]];
    } else if |o| == 2 {
      RunOne(t, s, ' ');
      RunOne(t, s, '-');
      RunAppend(t, s, " ", "-");
      assert o == " " + "-";
    }
  }

  lemma {:induction false} RunReplays(t: seq<Option>, s: State, input: string)
    requires Lookup(t, "") <= 0 && Plausible(t, s)
    ensures Output(t, s, Output(t, s, input)) == Output(t, s, input)
    decreases |input|
  {
    if input != [] {
      var s1 := Next(t, s, input[0]);
      StepReplays(t, s, input[0]);
      RunReplays(t, s1, input[1..]);
      RunAppend(t, s, Emit(t, s, input[0]), Output(t, s1, input[1..]));
    }
  }

  ghost predicate Idempotent(t: seq<Option>) {
    forall input: string :: Filter(t, Filter(t, input)) == Filter(t, input)
  }

  lemma RunCons(t: seq<Option>, s: State, c: char, rest: string)
    ensures Output(t, s, [c] + rest) == Emit(t, s, c) + Output(t, Next(t, s, c), rest)
  {
    assert ([c] + rest)[1..] == rest;
  }

  /** A marker with nothing behind it takes the quoted word as its argument ... */
  lemma MarkerTakesWord(t: seq<Option>)
    requires Lookup(t, "") > 0
    ensures Filter(t, "- \" /") == "-\" /"
  {
    var quoted := SkippingWord(true);
    RunOne(t, quoted, '/');
    RunCons(t, quoted, ' ', "/");
    RunCons(t, StartReadingArgument, '"', " /");
    RunCons(t, ReadingOption(""), ' ', "\" /");
    RunCons(t, SkippingSpaces, '-', " \" /");
  }

  /** ... but reads it as an option name once the space is gone. */
  lemma GluedWordIsAName(t: seq<Option>)
    ensures Filter(t, "-\" /") == "-\" -"
  {
    var named := Next(t, ReadingOption(""), '"');
    RunOne(t, Next(t, named, ' '), '/');
    RunCons(t, named, ' ', "/");
    RunCons(t, ReadingOption(""), '"', " /");
    RunCons(t, SkippingSpaces, '-', "\" /");
  }

  /** Filtering is idempotent exactly for the tables whose empty option takes no argument. */
  lemma IdempotentIff(t: seq<Option>)
    ensures Idempotent(t) <==> Lookup(t, "") <= 0
  {
    if Lookup(t, "") <= 0 {
      forall input: string ensures Filter(t, Filter(t, input)) == Filter(t, input) {
        RunReplays(t, SkippingSpaces, input);
      }
    } else {
      MarkerTakesWord(t);
      GluedWordIsAName(t);
      var input := "- \" /";
      assert Filter(t, Filter(t, input)) != Filter(t, input);
    }
  }

  /** Every table the description file can produce gives an idempotent filter. */
  lemma FilterIdempotent(lines: seq<string>, input: string)
    ensures var t := TableOf(lines); Filter(t, Filter(t, input)) == Filter(t, input)
  {
    TableHasNoArgumentForEmpty(lines);
    IdempotentIff(TableOf(lines));
  }

  // ---------------------------------------------------------------- conservation of content

  function Strip(s: string): string {
    if s == [] then "" else (if IsSpace(s[0]) then "" else [s[0]]) + Strip(s[1..])
  }

  function DashedChar(s: State, ch: char): char {
    if (s.SkippingSpaces? || s.StartReadingArgument?) && IsMarker(ch) then '-' else ch
  }

  /** The input with the marker of every option start turned into '-' and nothing else touched. */
  function Dashed(t: seq<Option>, s: State, input: string): (r: string)
    ensures |r| == |input|
    ensures forall i :: 0 <= i < |r| ==> r[i] == input[i] || (input[i] == '/' && r[i] == '-')
    decreases |input|
  {
    if input == [] then ""
    else
      [DashedChar(s, input[0])] + Dashed(t, Next(t, s, input[0]), input[1..])
  }

  lemma {:induction false} StripAppend(a: string, b: string)
    ensures Strip(a + b) == Strip(a) + Strip(b)
  {
    if a == [] {
      assert a + b == b;
    } else {
      assert (a + b)[1..] == a[1..] + b;
      StripAppend(a[1..], b);
    }
  }

  lemma StripOne(c: char)
    ensures Strip([c]) == if IsSpace(c) then "" else [c]
  {
    assert [c][1..] == "";
  }

  lemma StepContent(t: seq<Option>, s: State, ch: char)
    ensures Strip(Emit(t, s, ch)) == if IsSpace(ch) then "" else [DashedChar(s, ch)]
  {
    StripOne(ch);
    StripOne('-');
    StripOne(' ');
    StripAppend([' '], ['-']);
    assert " -" == [' '] + ['-'];
  }

  lemma {:induction false} ContentKept(t: seq<Option>, s: State, input: string)
    ensures Strip(Output(t, s, input)) == Strip(Dashed(t, s, input))
    decreases |input|
  {
    if input != [] {
      var s1 := Next(t, s, input[0]);
      ContentKept(t, s1, input[1..]);
      StripAppend(Emit(t, s, input[0]), Output(t, s1, input[1..]));
      StepContent(t, s, input[0]);
      assert Dashed(t, s, input)[1..] == Dashed(t, s1, input[1..]);
    }
  }

  // ---------------------------------------------------------------- arguments are joined

  predicate AllSpaces(s: string) {
    forall i :: 0 <= i < |s| ==> IsSpace(s[i])
  }

  lemma {:induction false} SpacesSwallowed(t: seq<Option>, ws: string)
    requires AllSpaces(ws)
    ensures After(t, StartReadingArgument, ws) == StartReadingArgument
    ensures Output(t, StartReadingArgument, ws) == ""
  {
    if ws != [] {
      SpacesSwallowed(t, ws[1..]);
    }
  }

  /** opt is recognised as a whole: no proper prefix of it is in the table. */
  predicate TakesArgument(t: seq<Option>, opt: string) {
    && opt != "" && Lookup(t, opt) > 0
    && (forall i :: 0 <= i < |opt| ==> !IsSpace(opt[i]))
    && (forall k :: 0 < k < |opt| ==> Lookup(t, opt[..k]) < 0)
  }

  lemma {:induction false} OptionRead(t: seq<Option>, opt: string, k: nat)
    requires TakesArgument(t, opt) && k < |opt|
    ensures After(t, ReadingOption(opt[..k]), opt[k..]) == StartReadingArgument
    decreases |opt| - k
  {
    assert opt[..k] + [opt[k]] == opt[..k + 1];
    assert opt[k..][1..] == opt[k + 1..];
    if k + 1 == |opt| {
      assert opt[..k + 1] == opt && opt[k + 1..] == "";
    } else {
      OptionRead(t, opt, k + 1);
    }
  }

  lemma OptionLeavesArgumentNext(t: seq<Option>, before: string, opt: string)
    requires After(t, SkippingSpaces, before) in {SkippingSpaces, StartReadingArgument}
    requires TakesArgument(t, opt)
    ensures After(t, SkippingSpaces, before + (['-'] + opt)) == StartReadingArgument
  {
    RunAppend(t, SkippingSpaces, before, ['-'] + opt);
    assert opt[..0] == "" && opt[0..] == opt;
    OptionRead(t, opt, 0);
    assert (['-'] + opt)[1..] == opt;
  }

  /** Any white space between an option and its argument gives the output of none at all. */
  lemma ArgumentJoined(t: seq<Option>, before: string, opt: string, ws: string, arg: string)
    requires After(t, SkippingSpaces, before) in {SkippingSpaces, StartReadingArgument}
    requires TakesArgument(t, opt) && AllSpaces(ws)
    ensures var o := before + (['-'] + opt);
            Filter(t, o + (ws + arg)) == Filter(t, o + arg) == Filter(t, o) + Output(t, StartReadingArgument, arg)
  {
    var o := before + (['-'] + opt);
    OptionLeavesArgumentNext(t, before, opt);
    SpacesSwallowed(t, ws);
    RunAppend(t, StartReadingArgument, ws, arg);
    RunAppend(t, SkippingSpaces, o, ws + arg);
    RunAppend(t, SkippingSpaces, o, arg);
  }
}
