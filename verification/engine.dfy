/**
 Building the argument vector of the packet-processing engine (`run_nfqws`),
 in the three versions the repository carries. Every version passes either
 `-v` (for a blank argument string) or the whitespace-split tokens of the
 string after a fixed prefix, and panics when a token holds a NUL character
 (`CString::new(..).unwrap()`). The engine itself is an opaque foreign call:
 it is represented only by the argument vector it receives.
 */
module Engine {
  import opened Common
  import opened Text

  /** Prefix of the library version: run as root on queue 200. */
  const LIB_PREFIX: seq<string> := ["nfqws", "--uid=0:0", "--qnum=200"]
  /** Prefix of the two binary versions. */
  const BARE_PREFIX: seq<string> := ["nfqws"]

  const NUL: char := 0 as char

  /** Some argument holds a NUL character, which a C string cannot carry. */
  predicate HasNul(argv: seq<string>) {
    exists i :: 0 <= i < |argv| && NUL in argv[i]
  }

  /** What follows the prefix: `-v` for a blank string, the tokens otherwise. */
  function ArgvTail(argsStr: string): (tail: seq<string>)
    ensures |tail| > 0 && AreWords(tail)
  {
    if Trim(argsStr) == [] then ["-v"]
    else
      SplitWhitespaceWords(argsStr);
      TrimEmptyIffBlank(argsStr);
      SplitEmptyIffBlank(argsStr);
      SplitWhitespace(argsStr)
  }

  /** A NUL can only sit inside a token, so the argument vector holds one
      exactly when the argument string does. */
  lemma TailNul(argsStr: string)
    ensures HasNul(ArgvTail(argsStr)) <==> NUL in argsStr
  {
    assert !IsWhitespace(NUL);
    TrimEmptyIffBlank(argsStr);
    if Trim(argsStr) == [] {
      assert "-v"[0] != NUL && "-v"[1] != NUL;
      forall i | 0 <= i < |argsStr|
        ensures argsStr[i] != NUL
      {
        assert IsWhitespace(argsStr[i]);
      }
    } else {
      assert ArgvTail(argsStr) == SplitWhitespace(argsStr);
      InSomeWord(NUL, argsStr);
    }
  }

  lemma HasNulAppend(a: seq<string>, b: seq<string>)
    ensures HasNul(a + b) <==> HasNul(a) || HasNul(b)
  {
    if HasNul(a + b) {
      var i :| 0 <= i < |a + b| && NUL in (a + b)[i];
      if i >= |a| {
        assert (a + b)[i] == b[i - |a|];
      }
    }
    if HasNul(a) {
      var i :| 0 <= i < |a| && NUL in a[i];
      assert (a + b)[i] == a[i];
    }
    if HasNul(b) {
      var i :| 0 <= i < |b| && NUL in b[i];
      assert (a + b)[|a| + i] == b[i];
    }
  }

  lemma PrefixesClean()
    ensures !HasNul(LIB_PREFIX) && !HasNul(BARE_PREFIX) && !HasNul(["-v"])
  {
    assert forall i :: 0 <= i < |LIB_PREFIX| ==> forall j :: 0 <= j < |LIB_PREFIX[i]| ==> LIB_PREFIX[i][j] != NUL;
    assert forall j :: 0 <= j < |"nfqws"| ==> "nfqws"[j] != NUL;
    assert forall j :: 0 <= j < |"-v"| ==> "-v"[j] != NUL;
  }

  /** The whole argument vector holds a NUL exactly when the argument string does. */
  lemma ArgvNul(prefix: seq<string>, argsStr: string)
    requires !HasNul(prefix)
    ensures HasNul(prefix + ArgvTail(argsStr)) <==> NUL in argsStr
  {
    HasNulAppend(prefix, ArgvTail(argsStr));
    TailNul(argsStr);
  }

  /** Whether the engine was reached, and with which argument vector. */
  datatype Launch = Launch(outcome: Outcome<()>, engineArgv: Option<seq<string>>)

  /** `run_nfqws` of the library: the engine runs in the calling thread and
      whatever it returns, the call ends in `Ok`. */
  function RunNfqws(argsStr: string): (l: Launch)
    ensures l.outcome.Done? <==> NUL !in argsStr
    ensures l.outcome.Done? <==> l.engineArgv.Some?
    ensures !l.outcome.Done? ==> l.outcome == Panicked(UNWRAP_PANIC)
    ensures l.engineArgv.Some? ==> |l.engineArgv.value| > 3 && l.engineArgv.value[..3] == LIB_PREFIX
    ensures l.engineArgv.Some? ==> !HasNul(l.engineArgv.value)
  {
    var argv := LIB_PREFIX + ArgvTail(argsStr);
    PrefixesClean();
    ArgvNul(LIB_PREFIX, argsStr);
    if HasNul(argv) then Launch(Panicked(UNWRAP_PANIC), None)
    else Launch(Done(()), Some(argv))
  }

  /** A blank argument string gives exactly the prefix and `-v`. */
  lemma RunBlank(argsStr: string)
    requires AllWhitespace(argsStr)
    ensures RunNfqws(argsStr) == Launch(Done(()), Some(LIB_PREFIX + ["-v"]))
  {
    TrimEmptyIffBlank(argsStr);
    TailNul(argsStr);
  }

  /** Otherwise the tail is the tokens, in order: non-empty, free of
      whitespace, and together holding every other character of the string. */
  lemma RunTokens(argsStr: string)
    requires !AllWhitespace(argsStr) && NUL !in argsStr
    ensures var argv := RunNfqws(argsStr).engineArgv.value;
      && argv[3..] == SplitWhitespace(argsStr)
      && AreWords(argv[3..])
      && Flatten(argv[3..]) == DropWhitespace(argsStr)
  {
    TrimEmptyIffBlank(argsStr);
    SplitWhitespaceWords(argsStr);
    var argv := RunNfqws(argsStr).engineArgv.value;
    assert argv == LIB_PREFIX + SplitWhitespace(argsStr);
    assert argv[3..] == SplitWhitespace(argsStr);
  }

  /** The `Args` subcommand joins its arguments with single spaces: words come
      back unchanged after the prefix, and no arguments give `-v`. */
  lemma RunJoinedArgs(args: seq<string>)
    requires AreWords(args) && forall i :: 0 <= i < |args| ==> NUL !in args[i]
    ensures RunNfqws(Join(args, " ")).engineArgv
         == Some(LIB_PREFIX + (if args == [] then ["-v"] else args))
  {
    JoinedTail(args);
    RunClean(Join(args, " "));
  }

  /** Without a NUL the library reaches the engine with the prefix and the tail. */
  lemma RunClean(argsStr: string)
    requires NUL !in argsStr
    ensures RunNfqws(argsStr) == Launch(Done(()), Some(LIB_PREFIX + ArgvTail(argsStr)))
  {
    PrefixesClean();
    ArgvNul(LIB_PREFIX, argsStr);
  }

  lemma JoinedTail(args: seq<string>)
    requires AreWords(args) && forall i :: 0 <= i < |args| ==> NUL !in args[i]
    ensures NUL !in Join(args, " ")
    ensures ArgvTail(Join(args, " ")) == (if args == [] then ["-v"] else args)
  {
    var s := Join(args, " ");
    SplitJoinWords(args);
    SplitEmptyIffBlank(s);
    TrimEmptyIffBlank(s);
    assert ArgvTail(s) == (if args == [] then ["-v"] else args);
    PrefixesClean();
    TailNul(s);
  }

  // ----------------------------------------- the guarded binary (RUNNING swap)

  /** The end of a call of the guarded `run_nfqws`: its result, the flag when
      it returns, the argument vector the spawned task hands to the engine, and
      the flag once that task has finished. */
  datatype GuardedRun = GuardedRun(
    outcome: Outcome<()>, running: bool, engineArgv: Option<seq<string>>, runningAfterTask: bool)

  /** `run_nfqws` of the second binary: the flag is swapped on before anything
      else, and the engine runs in a fire-and-forget task that clears the flag
      when the engine returns. A NUL panics inside the spawned task, so the call still
      returns `Ok` and the flag stays set. */
  function RunNfqwsGuarded(running: bool, argsStr: string): (r: GuardedRun)
    ensures r.running
    ensures running ==> r == GuardedRun(Failed(AlreadyStarted), true, None, true)
    ensures !running ==> r.outcome == Done(())
    ensures !running ==> (r.engineArgv.Some? <==> NUL !in argsStr)
    ensures r.engineArgv.Some? ==> |r.engineArgv.value| > 1 && r.engineArgv.value[..1] == BARE_PREFIX && !r.runningAfterTask
    ensures r.engineArgv.None? ==> r.runningAfterTask
  {
    if running then GuardedRun(Failed(AlreadyStarted), true, None, true)
    else
      var tail := if Trim(argsStr) == [] then ["-v"] else SplitWhitespace(Trim(argsStr));
      var argv := BARE_PREFIX + tail;
      GuardedTail(argsStr);
      PrefixesClean();
      ArgvNul(BARE_PREFIX, argsStr);
      if HasNul(argv) then GuardedRun(Done(()), true, None, true)
      else GuardedRun(Done(()), true, Some(argv), false)
  }

  /** Splitting the trimmed string gives the same tokens as the library. */
  lemma GuardedTail(argsStr: string)
    ensures (if Trim(argsStr) == [] then ["-v"] else SplitWhitespace(Trim(argsStr))) == ArgvTail(argsStr)
  {
    SplitTrim(argsStr);
  }

  /** While the engine of one call is still running, a second call bails. */
  lemma GuardedSecondCallBails(first: string, second: string)
    ensures RunNfqwsGuarded(RunNfqwsGuarded(false, first).running, second).outcome == Failed(AlreadyStarted)
  {
  }

  /** A NUL in the arguments leaves the flag set for good: every later call
      bails, even after the failed task has ended. */
  lemma GuardedNulLocksOut(first: string, later: string)
    requires NUL in first
    ensures RunNfqwsGuarded(RunNfqwsGuarded(false, first).runningAfterTask, later).outcome == Failed(AlreadyStarted)
  {
  }

  /** Once the engine of a clean call has returned, the engine can be started again. */
  lemma GuardedRestartsAfterEngine(first: string, later: string)
    requires NUL !in first
    ensures RunNfqwsGuarded(RunNfqwsGuarded(false, first).runningAfterTask, later).outcome == Done(())
  {
  }

  // ------------------------------------------------- the oldest binary (RUNNING load)

  /** The end of a call of the oldest `run_nfqws`: its result, the flag
      afterwards, and the argument vector the engine received. */
  datatype OldestRun = OldestRun(outcome: Outcome<()>, running: bool, engineArgv: Option<seq<string>>)

  const ALREADY_STARTED_PANIC: string := "Thread with nfqws already started!"

  /** `run_nfqws` of the oldest binary: a set flag panics; the argument vector
      is built (panicking on a NUL) before the flag is set, and nothing ever
      clears it again. */
  function RunNfqwsOldest(running: bool, argsStr: string): (r: OldestRun)
    ensures running ==> r == OldestRun(Panicked(ALREADY_STARTED_PANIC), true, None)
    ensures !running ==> (r.outcome.Done? <==> NUL !in argsStr)
    ensures !running && !r.outcome.Done? ==> r == OldestRun(Panicked(UNWRAP_PANIC), false, None)
    ensures r.outcome.Done? ==> r.running && r.engineArgv.Some? && |r.engineArgv.value| > 1 && r.engineArgv.value[..1] == BARE_PREFIX
  {
    if running then OldestRun(Panicked(ALREADY_STARTED_PANIC), true, None)
    else
      var tail := if Trim(argsStr) == [] then ["-v"] else SplitWhitespace(Trim(argsStr));
      var argv := BARE_PREFIX + tail;
      GuardedTail(argsStr);
      PrefixesClean();
      ArgvNul(BARE_PREFIX, argsStr);
      if HasNul(argv) then OldestRun(Panicked(UNWRAP_PANIC), false, None)
      else OldestRun(Done(()), true, Some(argv))
  }

  /** The binaries pass the same tokens as the library, after their own prefix. */
  lemma BinariesAgreeWithLibrary(argsStr: string)
    requires NUL !in argsStr
    ensures RunNfqwsOldest(false, argsStr).engineArgv.value == BARE_PREFIX + ArgvTail(argsStr)
    ensures RunNfqwsGuarded(false, argsStr).engineArgv.value == BARE_PREFIX + ArgvTail(argsStr)
    ensures RunNfqws(argsStr).engineArgv.value == LIB_PREFIX + ArgvTail(argsStr)
  {
    GuardedTail(argsStr);
  }

  /** After one successful start every later call panics. */
  lemma OldestRunsOnce(first: string, later: string)
    requires RunNfqwsOldest(false, first).outcome.Done?
    ensures RunNfqwsOldest(RunNfqwsOldest(false, first).running, later).outcome.Panicked?
  {
  }

  /** Without a NUL the oldest binary, on its first call, reaches the engine
      with its prefix and the tail. */
  lemma OldestClean(argsStr: string)
    requires NUL !in argsStr
    ensures RunNfqwsOldest(false, argsStr) == OldestRun(Done(()), true, Some(BARE_PREFIX + ArgvTail(argsStr)))
  {
    GuardedTail(argsStr);
    PrefixesClean();
    ArgvNul(BARE_PREFIX, argsStr);
  }

  /** A single word reaches the engine alone after the prefix. */
  lemma OldestSingleWord(word: string)
    requires word != [] && NoWhitespace(word) && NUL !in word
    ensures RunNfqwsOldest(false, word) == OldestRun(Done(()), true, Some(["nfqws", word]))
  {
    WordTail(word);
    OldestClean(word);
    assert BARE_PREFIX + [word] == ["nfqws", word];
  }

  lemma WordTail(word: string)
    requires word != [] && NoWhitespace(word)
    ensures ArgvTail(word) == [word]
  {
    TrimNoWhitespace(word);
    SplitWord(word);
  }

  /** With no subcommand the oldest binary starts the engine with `nfqws -v`. */
  lemma DefaultSubcommand()
    ensures RunNfqwsOldest(false, "-v") == OldestRun(Done(()), true, Some(["nfqws", "-v"]))
  {
    var s := "-v";
    assert s[0] != NUL && s[1] != NUL;
    assert NoWhitespace(s);
    OldestSingleWord(s);
  }


}
