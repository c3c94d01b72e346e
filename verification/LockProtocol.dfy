/**
 The lock protocol by which several parser processes share the intermediate-format (IF) file
 of one source file (aset_CCcc/src/SET_multiple_iffs.c, with the writers of SET_additions.c).
 One process's work on the file is a job; a run interleaves the atomic steps of any number
 of jobs, and of an environment that owns the pset file and may delete the IF file.
 */
module LockProtocol {
  import opened Basics

  /**
   Where a job is: the tests of extract_IF_file_for, the window between its O_EXCL open
   and its unlink (Writing, then Flushed), and the end.
   */
  datatype Pc = Idle | PsetAbsent | IfAbsent | LockAbsent | Writing | Flushed | Done

  /**
   added is all the text the job gave its buffer, pending what it has not written yet.
   The times count the steps of the run.
   */
  datatype Job = Job(pc: Pc, added: string, pending: string, testedAt: nat, lockedAt: nat, doneAt: nat)

  /** The shared file system, as far as this file goes, and the jobs by number. */
  datatype State = State(pset: bool, iff: Option<string>, lock: bool, jobs: map<nat, Job>, clock: nat,
                         owner: Option<nat>,    // who created the lock file
                         texts: seq<string>,    // whole texts of the finished jobs
                         createdAt: nat)        // when the IF file came into existence

  datatype Event =
    | Start(t: nat)                   // does_file_exist(pset file)
    | TestIf(t: nat)                  // does_file_exist(IF file)
    | TestLock(t: nat)                // does_file_exist(lock file), and mkdir of its directory
    | OpenLock(t: nat)                // open(lock file, O_EXCL | O_CREAT)
    | OpenIf(t: nat)                  // fopen(IF file, "a") ahead of the first write
    | Add(t: nat, text: string)       // text goes to the job's buffer
    | Write(t: nat)                   // buffer overflow: append the pending text
    | LastWrite(t: nat)               // the flush in flush_all_output_buffers
    | Unlink(t: nat)                  // remove_lock_file_for
    | SetPset(present: bool)          // another program creates or removes the pset file
    | DeleteIf                        // someone deletes the IF file

  function Fresh(): Job {
    Job(Idle, "", "", 0, 0, 0)
  }

  function Get(s: State, t: nat): Job {
    if t in s.jobs then s.jobs[t] else Fresh()
  }

  function At(s: State, t: nat): Pc {
    Get(s, t).pc
  }

  predicate Enabled(s: State, e: Event) {
    match e
    case Start(t) => At(s, t) == Idle
    case TestIf(t) => At(s, t) == PsetAbsent
    case TestLock(t) => At(s, t) == IfAbsent
    case OpenLock(t) => At(s, t) == LockAbsent
    case OpenIf(t) => At(s, t) == Writing
    case Add(t, _) => At(s, t) == Writing
    case Write(t) => At(s, t) == Writing
    case LastWrite(t) => At(s, t) == Writing
    case Unlink(t) => At(s, t) == Flushed
    case SetPset(_) => true
    case DeleteIf => s.iff.Some?
  }

  function With(s: State, t: nat, job: Job): State {
    s.(jobs := s.jobs[t := job])
  }

  function Content(s: State): string {
    if s.iff.Some? then s.iff.value else ""
  }

  /** The IF file with text appended, created if need be. */
  function Appended(s: State, text: string): State {
    s.(iff := Some(Content(s) + text), createdAt := if s.iff.Some? then s.createdAt else s.clock)
  }

  /** What the step does; a failed test or a lost race sends the job back to Idle. */
  function Effect(s: State, e: Event): State {
    match e
    case Start(t) => With(s, t, if s.pset then Fresh() else Fresh().(pc := PsetAbsent))
    case TestIf(t) => With(s, t, if s.iff.Some? then Fresh() else Get(s, t).(pc := IfAbsent, testedAt := s.clock))
    case TestLock(t) => With(s, t, if s.lock then Fresh() else Get(s, t).(pc := LockAbsent))
    case OpenLock(t) =>
      if s.lock then With(s, t, Fresh())
      else With(s.(lock := true, owner := Some(t)), t, Get(s, t).(pc := Writing, lockedAt := s.clock))
    case OpenIf(t) => Appended(s, "")
    case Add(t, text) => With(s, t, Get(s, t).(added := Get(s, t).added + text, pending := Get(s, t).pending + text))
    case Write(t) => With(Appended(s, Get(s, t).pending), t, Get(s, t).(pending := ""))
    case LastWrite(t) => With(Appended(s, Get(s, t).pending), t, Get(s, t).(pending := "", pc := Flushed))
    case Unlink(t) =>
      With(s.(lock := false, owner := None, texts := s.texts + [Get(s, t).added]), t,
           Get(s, t).(pc := Done, doneAt := s.clock))
    case SetPset(p) => s.(pset := p)
    case DeleteIf => s.(iff := None)
  }

  function Step(s: State, e: Event): State {
    Effect(s, e).(clock := s.clock + 1)
  }

  predicate Initial(s: State) {
    s.iff == None && !s.lock && s.owner == None && s.jobs == map[] && s.texts == []
  }

  /** A run, latest event last. */
  datatype Run = Begin(s: State) | Do(before: Run, e: Event)

  function Now(r: Run): State {
    match r case Begin(s) => s case Do(b, e) => Step(Now(b), e)
  }

  predicate IsRun(r: Run) {
    match r case Begin(s) => Initial(s) case Do(b, e) => IsRun(b) && Enabled(Now(b), e)
  }

  predicate NoDelete(r: Run) {
    r.Do? ==> NoDelete(r.before) && r.e != DeleteIf
  }

  /** later continues r. */
  predicate Continues(later: Run, r: Run) {
    later == r || (later.Do? && Continues(later.before, r))
  }

  // ---------------------------------------------------------------- the lock

  /** Between its successful O_EXCL create and its unlink. */
  predicate InWindow(s: State, t: nat) {
    At(s, t) == Writing || At(s, t) == Flushed
  }

  ghost predicate LockInv(s: State) {
    && (s.lock <==> s.owner.Some?)
    && (forall t: nat :: InWindow(s, t) <==> s.owner == Some(t))
  }

  lemma StepKeepsLock(s: State, e: Event)
    requires LockInv(s) && Enabled(s, e)
    ensures LockInv(Step(s, e))
  {
    var s' := Step(s, e);
    forall t: nat ensures InWindow(s', t) <==> s'.owner == Some(t) {
      assert InWindow(s, t) <==> s.owner == Some(t);
      if !e.SetPset? && !e.DeleteIf? { assert InWindow(s, e.t) <==> s.owner == Some(e.t); }
    }
  }

  /** In every run the lock file exists exactly while one job is in its window. */
  lemma {:induction false} LockHolds(r: Run)
    requires IsRun(r)
    ensures LockInv(Now(r))
  {
    if r.Do? {
      LockHolds(r.before);
      StepKeepsLock(Now(r.before), r.e);
    }
  }

  lemma MutualExclusion(r: Run, p: nat, q: nat)
    requires IsRun(r) && InWindow(Now(r), p) && InWindow(Now(r), q)
    ensures p == q && Now(r).lock
  {
    LockHolds(r);
  }

  /** The steps of the window are the owner's. */
  predicate NeedsLock(e: Event) {
    e.OpenIf? || e.Add? || e.Write? || e.LastWrite? || e.Unlink?
  }

  lemma OwnerActs(s: State, e: Event)
    requires LockInv(s) && Enabled(s, e) && NeedsLock(e)
    ensures s.owner == Some(e.t) && s.lock
  {
    assert InWindow(s, e.t);
  }

  /** Writes happen only in the window, and never take anything away. */
  lemma OnlyOwnersWrite(r: Run, e: Event)
    requires IsRun(r) && Enabled(Now(r), e) && e != DeleteIf
    ensures Step(Now(r), e).iff != Now(r).iff ==> NeedsLock(e) && Now(r).owner == Some(e.t)
    ensures Content(Now(r)) <= Content(Step(Now(r), e))
  {
    LockHolds(r);
    if NeedsLock(e) { OwnerActs(Now(r), e); }
  }

  // ---------------------------------------------------------------- the contents

  function Concat(texts: seq<string>): string {
    if texts == [] then "" else Concat(texts[..|texts| - 1]) + texts[|texts| - 1]
  }

  lemma ConcatAppend(texts: seq<string>, text: string)
    ensures Concat(texts + [text]) == Concat(texts) + text
  {
    assert (texts + [text])[..|texts|] == texts;
  }

  /** Before its window a job has no text. */
  predicate Blank(s: State, t: nat) {
    !InWindow(s, t) && At(s, t) != Done ==> Get(s, t).added == "" && Get(s, t).pending == ""
  }

  /** What is in the file with the text that this job still owes it. */
  predicate Balanced(s: State, t: nat) {
    && Content(s) + Get(s, t).pending == Concat(s.texts) + Get(s, t).added
    && (At(s, t) == Flushed ==> Get(s, t).pending == "" && s.iff.Some?)
  }

  /** The file is the finished texts, then what the owner has written of its own. */
  ghost predicate ContentInv(s: State) {
    && (s.owner.None? ==> Content(s) == Concat(s.texts))
    && (s.owner.Some? ==> Balanced(s, s.owner.value))
    && (forall t: nat :: Blank(s, t))
  }

  lemma StepKeepsBlank(s: State, e: Event)
    requires Enabled(s, e) && forall t: nat :: Blank(s, t)
    ensures forall t: nat :: Blank(Step(s, e), t)
  {
    forall t: nat ensures Blank(Step(s, e), t) {
      assert Blank(s, t);
    }
  }

  lemma StepKeepsContent(s: State, e: Event)
    requires LockInv(s) && ContentInv(s) && Enabled(s, e) && e != DeleteIf
    ensures ContentInv(Step(s, e))
  {
    StepKeepsBlank(s, e);
    if NeedsLock(e) {
      OwnerActs(s, e);
      WindowKeepsBalance(s, e);
    } else if e.OpenLock? {
      assert Blank(s, e.t);
      assert Content(s) + "" == Content(s) && Concat(s.texts) + "" == Concat(s.texts);
    } else if s.owner.Some? {
      assert InWindow(s, s.owner.value);
    }
  }

  lemma WindowKeepsBalance(s: State, e: Event)
    requires Enabled(s, e) && NeedsLock(e) && s.owner == Some(e.t) && Balanced(s, e.t)
    ensures e.Unlink? ==> Step(s, e).owner == None && Content(Step(s, e)) == Concat(Step(s, e).texts)
    ensures !e.Unlink? ==> Step(s, e).owner == s.owner && Balanced(Step(s, e), e.t)
  {
    var c, job := Content(s), Get(s, e.t);
    assert c + "" == c;
    match e {
      case Unlink(t) => ConcatAppend(s.texts, job.added);
      case Add(t, text) =>
        assert c + (job.pending + text) == (c + job.pending) + text;
        assert Concat(s.texts) + (job.added + text) == (Concat(s.texts) + job.added) + text;
      case Write(t) => assert (c + job.pending) + "" == c + job.pending;
      case LastWrite(t) => assert (c + job.pending) + "" == c + job.pending;
      case OpenIf(t) =>
    }
  }

  lemma {:induction false} ContentHolds(r: Run)
    requires IsRun(r) && NoDelete(r)
    ensures ContentInv(Now(r))
  {
    if r.Do? {
      ContentHolds(r.before);
      LockHolds(r.before);
      StepKeepsContent(Now(r.before), r.e);
    }
  }

  /** What is finished stays at the front of the file. */
  lemma {:induction false} FinishedComeFirst(r: Run)
    requires IsRun(r) && NoDelete(r)
    ensures Concat(Now(r).texts) <= Content(Now(r))
  {
    ContentHolds(r);
    if r.Do? {
      FinishedComeFirst(r.before);
      OnlyOwnersWrite(r.before, r.e);
      LockHolds(r.before);
      if r.e.Unlink? { OwnerActs(Now(r.before), r.e); }
    }
  }

  lemma PrefixOf(done: string, content: string, pending: string, added: string)
    requires done <= content && content + pending == done + added
    ensures content[|done|..] <= added && content == done + content[|done|..]
  {
    assert (content + pending)[|done|..] == content[|done|..] + pending;
    assert (done + added)[|done|..] == added;
  }

  /** Never a mix: whole texts of finished jobs, in the order they finished, and a prefix of the owner's. */
  lemma WholeTexts(r: Run)
    requires IsRun(r) && NoDelete(r)
    ensures var s := Now(r);
            if s.owner.None? then Content(s) == Concat(s.texts)
            else exists written :: written <= Get(s, s.owner.value).added && Content(s) == Concat(s.texts) + written
  {
    var s := Now(r);
    ContentHolds(r);
    if s.owner.Some? {
      FinishedComeFirst(r);
      PrefixOf(Concat(s.texts), Content(s), Get(s, s.owner.value).pending, Get(s, s.owner.value).added);
    }
  }

  // ---------------------------------------------------------------- extracting again

  /** Past its IF-existence test. */
  predicate Tested(s: State, t: nat) {
    At(s, t) != Idle && At(s, t) != PsetAbsent
  }

  /** The file exists once a job has flushed; whoever passed the test did so before it existed. */
  ghost predicate TestInv(s: State) {
    && (forall t: nat :: Tested(s, t) ==> Get(s, t).testedAt < s.clock)
    && (s.iff.Some? ==> s.createdAt < s.clock && forall t: nat :: Tested(s, t) ==> Get(s, t).testedAt < s.createdAt)
    && (forall t: nat :: At(s, t) == Flushed || At(s, t) == Done ==> s.iff.Some?)
    && (forall t: nat :: At(s, t) == Done ==> s.createdAt < Get(s, t).doneAt < s.clock)
  }

  lemma StepKeepsTested(s: State, e: Event)
    requires TestInv(s) && Enabled(s, e) && e != DeleteIf
    ensures TestInv(Step(s, e))
  {
    var s' := Step(s, e);
    forall t: nat
      ensures Tested(s', t) ==> Get(s', t).testedAt < s'.clock
      ensures s'.iff.Some? && Tested(s', t) ==> Get(s', t).testedAt < s'.createdAt
      ensures At(s', t) == Flushed || At(s', t) == Done ==> s'.iff.Some?
      ensures At(s', t) == Done ==> s'.createdAt < Get(s', t).doneAt < s'.clock
    {
      assert Tested(s, t) ==> Get(s, t).testedAt < s.clock;
    }
  }

  lemma {:induction false} TestHolds(r: Run)
    requires IsRun(r) && NoDelete(r)
    ensures TestInv(Now(r))
  {
    if r.Do? {
      TestHolds(r.before);
      StepKeepsTested(Now(r.before), r.e);
    }
  }

  /** Whoever got past the test, and so whoever extracts once p has finished, tested before the file existed. */
  lemma RepeatOnlyInRace(r: Run, p: nat, q: nat)
    requires IsRun(r) && NoDelete(r) && At(Now(r), p) == Done && Tested(Now(r), q)
    ensures Get(Now(r), q).testedAt < Now(r).createdAt < Get(Now(r), p).doneAt
  {
    TestHolds(r);
  }

  /** Once the file exists, a job that has yet to test never gets to extract. */
  lemma {:induction false} ExistingIsFinal(r: Run, later: Run, q: nat)
    requires IsRun(later) && NoDelete(later) && Continues(later, r)
    requires Now(r).iff.Some? && !Tested(Now(r), q)
    ensures Now(later).iff.Some? && !Tested(Now(later), q)
  {
    if later != r {
      ExistingIsFinal(r, later.before, q);
      UntestedStays(Now(later.before), later.e, q);
    }
  }

  /** In particular one that has yet to test when another has finished. */
  lemma FinishedIsFinal(r: Run, later: Run, p: nat, q: nat)
    requires IsRun(r) && NoDelete(r) && IsRun(later) && NoDelete(later) && Continues(later, r)
    requires At(Now(r), p) == Done && !Tested(Now(r), q)
    ensures Now(later).iff.Some? && !Tested(Now(later), q)
  {
    TestHolds(r);
    ExistingIsFinal(r, later, q);
  }

  lemma UntestedStays(s: State, e: Event, q: nat)
    requires s.iff.Some? && !Tested(s, q) && Enabled(s, e) && e != DeleteIf
    ensures Step(s, e).iff.Some? && !Tested(Step(s, e), q)
  {
  }

  ghost predicate OthersKept(s: State, s': State, t: nat) {
    forall u: nat :: u != t ==> Get(s', u) == Get(s, u)
  }

  lemma OneMore(r: Run, e: Event)
    ensures Continues(r, r) && Continues(Do(r, e), r)
  {
    assert Continues(r, r);
  }

  /** later is a run that goes on from r, in which only t has moved and the file is still there. */
  ghost predicate Moves(later: Run, r: Run, t: nat) {
    IsRun(later) && NoDelete(later) && Continues(later, r) && OthersKept(Now(r), Now(later), t)
  }

  lemma {:induction false} ContinuesOn(r: Run, mid: Run, later: Run)
    requires Continues(mid, r) && Continues(later, mid)
    ensures Continues(later, r)
    decreases later
  {
    if later != mid { ContinuesOn(r, mid, later.before); }
  }

  lemma MovesOn(r: Run, mid: Run, later: Run, t: nat)
    requires Moves(mid, r, t) && Moves(later, mid, t)
    ensures Moves(later, r, t)
  {
    ContinuesOn(r, mid, later);
  }

  /** Past the IF test and short of the lock */
  predicate Waits(s: State, t: nat) {
    At(s, t) == IfAbsent || At(s, t) == LockAbsent
  }

  lemma SeesNoLock(r: Run, t: nat) returns (later: Run)
    requires IsRun(r) && NoDelete(r) && Waits(Now(r), t) && !Now(r).lock
    ensures Moves(later, r, t) && At(Now(later), t) == LockAbsent && !Now(later).lock
    ensures Get(Now(later), t).pending == Get(Now(r), t).pending && Content(Now(later)) == Content(Now(r))
  {
    later := r;
    if At(Now(r), t) == IfAbsent { later := Do(r, TestLock(t)); }
  }

  lemma TakesLock(r: Run, t: nat) returns (later: Run)
    requires IsRun(r) && NoDelete(r) && Waits(Now(r), t) && !Now(r).lock
    ensures Moves(later, r, t)
    ensures At(Now(later), t) == Writing && Get(Now(later), t).pending == "" && Content(Now(later)) == Content(Now(r))
  {
    ContentHolds(r);
    assert Blank(Now(r), t);
    var ready := SeesNoLock(r, t);
    later := Do(ready, OpenLock(t));
  }

  lemma WritesText(r: Run, t: nat, text: string) returns (later: Run)
    requires IsRun(r) && NoDelete(r) && At(Now(r), t) == Writing && Get(Now(r), t).pending == ""
    ensures Moves(later, r, t)
    ensures At(Now(later), t) == Flushed && Content(Now(later)) == Content(Now(r)) + text
  {
    var added := Do(r, Add(t, text));
    OneMore(r, Add(t, text));
    assert "" + text == text;
    assert IsRun(added) && NoDelete(added) && Get(Now(added), t).pending == text;
    later := Do(added, LastWrite(t));
  }

  /** The owner of the lock can always finish, whatever it has still to write. */
  lemma OwnerFinishes(r: Run, t: nat) returns (later: Run)
    requires IsRun(r) && NoDelete(r) && InWindow(Now(r), t)
    ensures Moves(later, r, t) && At(Now(later), t) == Done && !Now(later).lock && Now(later).iff.Some?
  {
    var flushed := if At(Now(r), t) == Writing then Do(r, LastWrite(t)) else r;
    assert IsRun(flushed) && NoDelete(flushed) && Continues(flushed, r);
    TestHolds(flushed);
    later := Do(flushed, Unlink(t));
  }

  /** Whoever has passed the IF test can go on to extract as soon as the lock is free, file or no file. */
  lemma {:induction false} LateExtraction(r: Run, t: nat, text: string) returns (later: Run)
    requires IsRun(r) && NoDelete(r) && Waits(Now(r), t) && !Now(r).lock
    ensures Moves(later, r, t)
    ensures At(Now(later), t) == Done && !Now(later).lock && Content(Now(later)) == Content(Now(r)) + text
  {
    var locked := TakesLock(r, t);
    var written := WritesText(locked, t, text);
    MovesOn(r, locked, written, t);
    later := Do(written, Unlink(t));
  }

  /** Whoever has passed the IF test can go on to extract, also when another holds the lock. */
  lemma TestedExtracts(r: Run, q: nat) returns (later: Run)
    requires IsRun(r) && NoDelete(r) && Tested(Now(r), q)
    ensures IsRun(later) && NoDelete(later) && Continues(later, r) && At(Now(later), q) == Done
  {
    LockHolds(r);
    if At(Now(r), q) == Done {
      later := r;
    } else if InWindow(Now(r), q) {
      later := OwnerFinishes(r, q);
    } else {
      var free := r;
      if Now(r).owner.Some? {
        var u := Now(r).owner.value;
        assert InWindow(Now(r), u);
        free := OwnerFinishes(r, u);
      }
      later := LateExtraction(free, q, "");
      ContinuesOn(r, free, later);
    }
  }

  /** Without the file anyone can come to pass the IF test. */
  lemma PassesTest(r: Run, q: nat) returns (later: Run)
    requires IsRun(r) && NoDelete(r) && Now(r).iff.None? && !Tested(Now(r), q)
    ensures IsRun(later) && NoDelete(later) && Continues(later, r) && Tested(Now(later), q)
  {
    var absent := Do(r, SetPset(false));
    assert IsRun(absent) && NoDelete(absent) && Continues(absent, r);
    var started := absent;
    if At(Now(r), q) == Idle {
      started := Do(absent, Start(q));
      assert IsRun(started) && NoDelete(started) && Continues(started, r);
    }
    later := Do(started, TestIf(q));
  }

  /**
   When a job can still extract: exactly while there is no file, and after that exactly if it has
   passed its IF test, whoever holds the lock and however many have finished.
   */
  lemma {:induction false} CanExtractIff(r: Run, q: nat)
    requires IsRun(r) && NoDelete(r)
    ensures (exists later :: IsRun(later) && NoDelete(later) && Continues(later, r) && At(Now(later), q) == Done)
       <==> Now(r).iff.None? || Tested(Now(r), q)
  {
    if Tested(Now(r), q) {
      var later := TestedExtracts(r, q);
    } else if Now(r).iff.None? {
      var passed := PassesTest(r, q);
      var later := TestedExtracts(passed, q);
      ContinuesOn(r, passed, later);
    } else {
      forall later | IsRun(later) && NoDelete(later) && Continues(later, r) ensures At(Now(later), q) != Done {
        ExistingIsFinal(r, later, q);
      }
    }
  }

  /** So a second extraction is possible, once p has finished, exactly for those past their IF test. */
  lemma {:induction false} RepeatIff(r: Run, p: nat, q: nat)
    requires IsRun(r) && NoDelete(r) && At(Now(r), p) == Done
    ensures (exists later :: IsRun(later) && NoDelete(later) && Continues(later, r) && At(Now(later), q) == Done)
       <==> Tested(Now(r), q)
  {
    TestHolds(r);
    CanExtractIff(r, q);
  }

  const NOTHING := State(false, None, false, map[], 0, None, [], 0)

  lemma TwoTests() returns (tests: Run)
    ensures IsRun(tests) && NoDelete(tests)
    ensures At(Now(tests), 0) == At(Now(tests), 1) == IfAbsent && !Now(tests).lock && Content(Now(tests)) == ""
  {
    var starts := Do(Do(Begin(NOTHING), Start(0)), Start(1));
    assert IsRun(starts) && NoDelete(starts);
    tests := Do(Do(starts, TestIf(0)), TestIf(1));
  }

  /** So extraction at most once is not what the protocol gives: two jobs test, then both extract. */
  lemma BothCanExtract()
    ensures exists r ::
      IsRun(r) && NoDelete(r) && At(Now(r), 0) == Done && At(Now(r), 1) == Done && Content(Now(r)) == "ab"
  {
    var tests := TwoTests();
    var first := LateExtraction(tests, 0, "a");
    var second := LateExtraction(first, 1, "b");
    assert Content(Now(tests)) + "a" + "b" == "ab";
    assert Get(Now(second), 0) == Get(Now(first), 0);
  }

  // ---------------------------------------------------------------- one process alone

  /** The next step of extract_IF_file_for, while its tests succeed. */
  function TryNext(s: State, t: nat): State {
    match At(s, t)
    case Idle => Step(s, Start(t))
    case PsetAbsent => Step(s, TestIf(t))
    case IfAbsent => Step(s, TestLock(t))
    case LockAbsent => Step(s, OpenLock(t))
    case _ => s
  }

  /** A file that is in the way sends a job back to the start at each of its four steps; else it goes on by one. */
  lemma TestsDecide(s: State, t: nat)
    ensures At(s, t) == Idle ==> At(TryNext(s, t), t) == if s.pset then Idle else PsetAbsent
    ensures At(s, t) == PsetAbsent ==> At(TryNext(s, t), t) == if s.iff.Some? then Idle else IfAbsent
    ensures At(s, t) == IfAbsent ==> At(TryNext(s, t), t) == if s.lock then Idle else LockAbsent
    ensures At(s, t) == LockAbsent ==> At(TryNext(s, t), t) == if s.lock then Idle else Writing
    ensures TryNext(s, t).lock <==> s.lock || At(s, t) == LockAbsent
    ensures TryNext(s, t).iff == s.iff && TryNext(s, t).pset == s.pset
  {
  }

  /** Without interference the tests and the open amount to the criterion for extracting a file. */
  lemma UninterruptedExtract(s: State, t: nat)
    requires At(s, t) == Idle
    ensures var s1 := TryNext(s, t);
            var s2 := if At(s1, t) == PsetAbsent then TryNext(s1, t) else s1;
            var s3 := if At(s2, t) == IfAbsent then TryNext(s2, t) else s2;
            var s4 := if At(s3, t) == LockAbsent then TryNext(s3, t) else s3;
            At(s4, t) == (if !s.pset && s.iff.None? && !s.lock then Writing else Idle)
  {
  }
}
