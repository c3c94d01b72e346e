/**
 What the option filter does to whole words: quoted text, plain words, options of each kind, and
 the lines of the description file (options_filter/option_filter.cxx).
 */
module OptionWords {
  import opened OptionFilter
  import Decimal

  /** White space is what isspace accepts: the blank, and the control characters from 9 to 13. */
  lemma SpaceIs(c: char)
    ensures IsSpace(c) <==> c as int == 32 || 9 <= c as int <= 13
  {
  }

  // ---------------------------------------------------------------- quoted text and plain words

  /** A state in which a word may start, or is being passed over outside quotation marks */
  predicate Outside(s: State) {
    s == SkippingSpaces || s == StartReadingArgument || s == SkippingWord(false)
  }

  lemma {:induction false} InsideQuotes(t: seq<Option>, q: string)
    requires '"' !in q
    ensures Output(t, SkippingWord(true), q) == q && After(t, SkippingWord(true), q) == SkippingWord(true)
  {
    if q != [] { InsideQuotes(t, q[1..]); }
  }

  lemma QuotedWord(t: seq<Option>, s: State, q: string)
    requires Outside(s) && '"' !in q
    ensures Output(t, s, ['"'] + q + ['"']) == ['"'] + q + ['"']
    ensures After(t, s, ['"'] + q + ['"']) == SkippingWord(false)
  {
    InsideQuotes(t, q);
    RunAppend(t, s, ['"'] + q, ['"']);
    RunAppend(t, s, ['"'], q);
    RunOne(t, s, '"');
    RunOne(t, SkippingWord(true), '"');
  }

  /** White space, '/' and '-' between quotation marks are never altered, whatever stands around them. */
  lemma QuotedIsCopied(t: seq<Option>, before: string, q: string, after: string)
    requires Outside(After(t, SkippingSpaces, before)) && '"' !in q
    ensures Filter(t, before + (['"'] + q + ['"']) + after)
         == Filter(t, before) + (['"'] + q + ['"']) + Output(t, SkippingWord(false), after)
  {
    var quoted := ['"'] + q + ['"'];
    QuotedWord(t, After(t, SkippingSpaces, before), q);
    RunAppend(t, SkippingSpaces, before + quoted, after);
    RunAppend(t, SkippingSpaces, before, quoted);
  }

  /** Outside quotation marks a word that has started is copied to its end. */
  lemma {:induction false} RestOfWord(t: seq<Option>, w: string)
    requires '"' !in w && forall c :: c in w ==> !IsSpace(c)
    ensures Output(t, SkippingWord(false), w) == w && After(t, SkippingWord(false), w) == SkippingWord(false)
  {
    if w != [] {
      assert w[0] in w;
      RestOfWord(t, w[1..]);
    }
  }

  /** A word that does not start with '/' or '-' is copied, markers inside it included. */
  lemma PlainWord(t: seq<Option>, s: State, w: string)
    requires Outside(s) && w != "" && w[0] != '/' && w[0] != '-'
    requires '"' !in w && forall c :: c in w ==> !IsSpace(c)
    ensures Output(t, s, w) == w && After(t, s, w) == SkippingWord(false)
  {
    assert w[0] in w;
    RestOfWord(t, w[1..]);
  }

  /** White space between words is copied. */
  lemma {:induction false} SpacesBetween(t: seq<Option>, s: State, ws: string)
    requires s == SkippingSpaces || s == SkippingWord(false)
    requires ws != "" && AllSpaces(ws)
    ensures Output(t, s, ws) == ws && After(t, s, ws) == SkippingSpaces
    decreases |ws|
  {
    if |ws| == 1 {
      assert ws == [ws[0]];
      RunOne(t, s, ws[0]);
    } else {
      SpacesBetween(t, SkippingSpaces, ws[1..]);
    }
  }

  // ---------------------------------------------------------------- options

  /** A name of which no proper beginning is in the table */
  predicate ReadToTheEnd(t: seq<Option>, name: string) {
    && name != "" && (forall c :: c in name ==> !IsSpace(c))
    && (forall k :: 0 < k < |name| ==> Lookup(t, name[..k]) < 0)
  }

  lemma {:induction false} NameRead(t: seq<Option>, name: string, k: nat)
    requires ReadToTheEnd(t, name) && k < |name|
    ensures Output(t, ReadingOption(name[..k]), name[k..]) == name[k..]
    ensures After(t, ReadingOption(name[..k]), name[k..]) ==
      if Lookup(t, name) == 0 then SkippingWord(false)
      else if Lookup(t, name) > 0 then StartReadingArgument else ReadingOption(name)
    decreases |name| - k
  {
    assert name[k] in name;
    assert name[..k] + [name[k]] == name[..k + 1];
    assert name[k..][1..] == name[k + 1..];
    if k + 1 == |name| {
      assert name[..k + 1] == name && name[k + 1..] == "";
    } else {
      NameRead(t, name, k + 1);
    }
  }

  /** An option gets the marker '-' whichever it had, and its kind decides what is expected next. */
  lemma OptionIsDashed(t: seq<Option>, marker: char, name: string)
    requires (marker == '/' || marker == '-') && ReadToTheEnd(t, name)
    ensures Output(t, SkippingSpaces, [marker] + name) == "-" + name
    ensures After(t, SkippingSpaces, [marker] + name) ==
      if Lookup(t, name) == 0 then SkippingWord(false)
      else if Lookup(t, name) > 0 then StartReadingArgument else ReadingOption(name)
  {
    assert name[..0] == "" && name[0..] == name;
    NameRead(t, name, 0);
    RunAppend(t, SkippingSpaces, [marker], name);
    RunOne(t, SkippingSpaces, marker);
  }

  /** Behind an option that is not in the table white space is kept. */
  lemma UnknownOptionEnds(t: seq<Option>, name: string, ws: string)
    requires Lookup(t, name) < 0 && ws != "" && AllSpaces(ws)
    ensures Output(t, ReadingOption(name), ws) == ws && After(t, ReadingOption(name), ws) == SkippingSpaces
  {
    if |ws| > 1 {
      SpacesBetween(t, SkippingSpaces, ws[1..]);
    } else {
      assert ws == [ws[0]];
      RunOne(t, ReadingOption(name), ws[0]);
    }
  }

  /** An option where an argument was expected is kept apart from the one before by one blank. */
  lemma OptionInsteadOfArgument(t: seq<Option>, marker: char, name: string)
    requires (marker == '/' || marker == '-') && ReadToTheEnd(t, name)
    ensures Output(t, StartReadingArgument, [marker] + name) == " -" + name
    ensures After(t, StartReadingArgument, [marker] + name) == After(t, SkippingSpaces, [marker] + name)
  {
    assert name[..0] == "" && name[0..] == name;
    NameRead(t, name, 0);
    RunAppend(t, StartReadingArgument, [marker], name);
    RunOne(t, StartReadingArgument, marker);
    RunAppend(t, SkippingSpaces, [marker], name);
    RunOne(t, SkippingSpaces, marker);
  }

  // ---------------------------------------------------------------- the table and its description

  /** The count looked up is that of the earliest entry with the name; -1 without one. */
  lemma {:induction false} LookupIsFirst(t: seq<Option>, name: string)
    ensures if exists i :: 0 <= i < |t| && t[i].option == name
            then exists i :: 0 <= i < |t| && t[i].option == name && t[i].numArgs == Lookup(t, name)
                             && forall j :: 0 <= j < i ==> t[j].option != name
            else Lookup(t, name) == -1
  {
    if t != [] && t[0].option != name {
      LookupIsFirst(t[1..], name);
      if i :| 0 <= i < |t| && t[i].option == name {
        assert t[1..][i - 1].option == name;
        var j :| 0 <= j < |t[1..]| && t[1..][j].option == name && t[1..][j].numArgs == Lookup(t[1..], name)
                 && forall k :: 0 <= k < j ==> t[1..][k].option != name;
        var m := j + 1;
        assert t[m].option == name;
        forall k | 0 <= k < m ensures t[k].option != name {
          if k > 0 { assert t[1..][k - 1].option != name; }
        }
      } else {
        forall k | 0 <= k < |t[1..]| ensures t[1..][k].option != name { assert t[k + 1].option != name; }
      }
    }
  }

  lemma {:induction false} SpacesPassed(line: string, p: nat, q: nat)
    requires p <= q <= |line| && (forall i :: p <= i < q ==> IsSpace(line[i]))
    requires q < |line| ==> !IsSpace(line[q])
    ensures SpacesEnd(line, p) == q
    decreases q - p
  {
    if p < q { SpacesPassed(line, p + 1, q); }
  }

  lemma {:induction false} WordPassed(line: string, p: nat, q: nat)
    requires p <= q <= |line| && (forall i :: p <= i < q ==> !IsSpace(line[i]))
    requires q < |line| ==> IsSpace(line[q])
    ensures WordEnd(line, p) == q
    decreases q - p
  {
    if p < q { WordPassed(line, p + 1, q); }
  }

  /** Digits are read as the decimal number they are. */
  lemma {:induction false} DigitsRead(s: string, acc: nat)
    requires forall c :: c in s ==> IsDigit(c)
    ensures Digits(s, acc) == Scaled(s, acc)
    decreases |s|
  {
    if s != [] {
      assert s[0] in s;
      DigitsRead(s[1..], 10 * acc + (s[0] - '0') as nat);
      ScaledFirst(s, acc);
    }
  }

  /** acc with the digits of s behind its own */
  function Scaled(s: string, acc: nat): nat {
    if s == "" then acc else 10 * Scaled(s[..|s| - 1], acc) + Decimal.DigitValue(s[|s| - 1])
  }

  lemma {:induction false} ScaledFirst(s: string, acc: nat)
    requires s != "" && IsDigit(s[0])
    ensures Scaled(s, acc) == Scaled(s[1..], 10 * acc + (s[0] - '0') as nat)
    decreases |s|
  {
    if |s| == 1 {
      assert s[..0] == "" && s[1..] == "";
    } else {
      var init := s[..|s| - 1];
      ScaledFirst(init, acc);
      assert init[1..] == s[1..][..|s[1..]| - 1];
    }
  }

  lemma {:induction false} ScaledIsValue(s: string)
    ensures Scaled(s, 0) == Decimal.Value(s)
  {
    if s != "" { ScaledIsValue(s[..|s| - 1]); }
  }

  /** Reading stops at the first character that is not a digit. */
  lemma {:induction false} DigitsEnd(s: string, more: string, acc: nat)
    requires (forall i :: 0 <= i < |s| ==> IsDigit(s[i])) && (more != "" ==> !IsDigit(more[0]))
    ensures Digits(s + more, acc) == Digits(s, acc)
    decreases |s|
  {
    if s == [] {
      assert s + more == more;
    } else {
      assert (s + more)[1..] == s[1..] + more;
      assert IsDigit(s[0]);
      DigitsEnd(s[1..], more, 10 * acc + (s[0] - '0') as nat);
    }
  }

  lemma DecimalRead(num: nat, more: string)
    requires more != "" ==> !IsDigit(more[0])
    ensures Digits(Decimal.Dec(num) + more, 0) == num
  {
    var s := Decimal.Dec(num);
    Decimal.DecIsCanonical(num);
    forall i | 0 <= i < |s| ensures IsDigit(s[i]) { assert s[i] in s; }
    DigitsEnd(s, more, 0);
    DigitsRead(s, 0);
    ScaledIsValue(s);
  }

  /** A number is read behind white space and up to what cannot belong to it, with its sign if it has one. */
  lemma NumberRead(lead: string, num: nat, more: string)
    requires AllSpaces(lead) && (more != "" ==> !IsDigit(more[0]))
    ensures Atoi(lead + (Decimal.Dec(num) + more)) == num
    ensures Atoi(lead + ("-" + (Decimal.Dec(num) + more))) == -(num as int)
    ensures Atoi(lead + ("+" + (Decimal.Dec(num) + more))) == num
  {
    var s := Decimal.Dec(num) + more;
    DecimalRead(num, more);
    Decimal.DecIsCanonical(num);
    assert s[0] in Decimal.Dec(num);
    BehindSpaces(lead, s);
    BehindSpaces(lead, "-" + s);
    BehindSpaces(lead, "+" + s);
    assert ("-" + s)[1..] == s && ("+" + s)[1..] == s;
  }

  /** What does not start with a digit or a sign counts as 0, as does white space alone. */
  lemma NoNumberRead(lead: string, more: string)
    requires AllSpaces(lead)
    requires more != "" ==> !IsSpace(more[0]) && !('0' <= more[0] <= '9') && more[0] != '-' && more[0] != '+'
    ensures Atoi(lead + more) == 0
  {
    if more == "" {
      assert lead + more == lead;
      SpacesPassed(lead, 0, |lead|);
    } else {
      BehindSpaces(lead, more);
      assert more[0..] == more;
    }
  }

  lemma BehindSpaces(lead: string, s: string)
    requires AllSpaces(lead) && s != "" && !IsSpace(s[0])
    ensures Atoi(lead + s) == Atoi(s) && SpacesEnd(s, 0) == 0
  {
    var line := lead + s;
    assert forall i :: 0 <= i < |lead| ==> line[i] == lead[i];
    assert line[|lead|] == s[0] && line[|lead|..] == s;
    SpacesPassed(line, 0, |lead|);
    SpacesPassed(s, 0, 0);
    assert s[0..] == s;
  }

  /** A word without white space */
  predicate IsWord(w: string) {
    w != "" && forall i :: 0 <= i < |w| ==> !IsSpace(w[i])
  }

  /** A description line in parts: white space, a word, and perhaps white space and a number. */
  lemma LineIsRead(lead: string, word: string, gap: string, num: nat)
    requires AllSpaces(lead) && IsWord(word) && AllSpaces(gap) && gap != ""
    ensures ParseLine(lead + word) == Option(word, 0)
    ensures ParseLine(lead + word + gap) == Option(word, 0)
    ensures ParseLine(lead + word + gap + Decimal.Dec(num)) == Option(word, num)
  {
    var digits := Decimal.Dec(num);
    PlainNumberRead(num);
    PartsRead(lead, word, "", "");
    PartsRead(lead, word, gap, "");
    PartsRead(lead, word, gap, digits);
    assert lead + word + "" + "" == lead + word && lead + word + gap + "" == lead + word + gap;
  }

  lemma PlainNumberRead(num: nat)
    ensures Atoi(Decimal.Dec(num)) == num && !IsSpace(Decimal.Dec(num)[0])
  {
    var digits := Decimal.Dec(num);
    NumberRead("", num, "");
    assert digits + "" == digits;
    assert "" + digits == digits;
    DigitsAreNoSpaces(num);
  }

  lemma DigitsAreNoSpaces(num: nat)
    ensures !IsSpace(Decimal.Dec(num)[0])
  {
    Decimal.DecIsCanonical(num);
    assert Decimal.Dec(num)[0] in Decimal.Dec(num);
  }

  lemma PartsRead(lead: string, word: string, gap: string, rest: string)
    requires AllSpaces(lead) && IsWord(word) && AllSpaces(gap) && (gap == "" ==> rest == "")
    requires rest != "" ==> !IsSpace(rest[0])
    ensures ParseLine(lead + word + gap + rest) == Option(word, if rest == "" then 0 else Atoi(rest))
  {
    var line, p, q := lead + word + gap + rest, |lead|, |lead| + |word|;
    var r := q + |gap|;
    assert line[..p] == lead && line[p..q] == word && line[q..r] == gap && line[r..] == rest;
    assert forall i :: 0 <= i < p ==> line[i] == lead[i];
    assert forall i :: p <= i < q ==> line[i] == word[i - p];
    assert forall i :: q <= i < r ==> line[i] == gap[i - q];
    assert rest != "" ==> line[r] == rest[0];
    SpacesPassed(line, 0, p);
    WordPassed(line, p, q);
    SpacesPassed(line, q, r);
  }
}
