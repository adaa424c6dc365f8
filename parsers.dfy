/**
 * The parser plugin `BigDFTParser` (aiida_bigdft_new/parsers.py): the
 * classification of scheduler stderr text (`parse_stderr`) and the decision
 * skeleton of `parse`, which reconciles the recorded stderr signal with the
 * retrieved files and the outcome of copying and storing the log file.
 */
module Parsers {
  import opened Wrappers
  import opened Calculations
  import opened Patterns
  import opened PatternShapes

  // ---------------------------------------------------------------------------
  // The stderr signatures

  // Wall-time signatures, after the batch scheduler that prints them.
  const SlurmTimeout: Pattern := [Text("DUE TO TIME LIMIT")]
  const UgeTimeout: Pattern := [Text("exceeded hard wallclock time")]
  const LsfTimeout: Pattern := [Text("TERM_RUNLIMIT: job killed")]
  const PbsTimeout: Pattern := [Text("walltime "), DotStar, Text(" exceeded limit")]

  /** `timeout_messages`. */
  const WalltimeMessages: set<Pattern> := {SlurmTimeout, UgeTimeout, LsfTimeout, PbsTimeout}

  // Out-of-memory signatures: two generic ones, then one per batch scheduler.
  const GenericOom: Pattern :=
    [OneOf({'o', 'O'}), Text("ut "), OneOf({'o', 'O'}), Text("f "), OneOf({'m', 'M'}), Text("emory")]
  const OomKill: Pattern := [Text("oom-kill")]
  const SlurmOom: Pattern := [Text("Exceeded "), DotStar, Text(" memory limit")]
  const UgeOom: Pattern := [Text("exceeds job hard limit "), DotStar, Text("mem"), DotStar, Text(" of queue")]
  const LsfOom: Pattern := [Text("TERM_MEMLIMIT: job killed after reaching LSF memory usage limit")]
  const PbsOom: Pattern := [Text("mem "), DotStar, Text(" exceeded limit")]

  /** `oom_messages`. */
  const OomMessages: set<Pattern> := {GenericOom, OomKill, SlurmOom, UgeOom, LsfOom, PbsOom}

  /** `re.search` and the declarative reading agree on every pattern. */
  lemma {:induction false} SearchIsOccursEverywhere(text: string)
    ensures forall p :: Search(p, text) <==> Occurs(p, text)
  {
    forall p ensures Search(p, text) <==> Occurs(p, text) {
      SearchIsOccurs(p, text);
    }
  }

  /**
   * What `parse_stderr` returns for `text`: the wall-time code if some
   * wall-time signature occurs in it, else the out-of-memory code if some
   * out-of-memory signature occurs, else nothing.
   */
  function StderrSignal(text: string): (r: Option<ExitKind>)
    ensures r == Some(OutOfWalltime) <==> exists p :: p in WalltimeMessages && Occurs(p, text)
    ensures r == Some(OutOfMemory) <==>
              (forall p :: p in WalltimeMessages ==> !Occurs(p, text))
              && exists p :: p in OomMessages && Occurs(p, text)
    ensures r == None <==> forall p :: p in WalltimeMessages + OomMessages ==> !Occurs(p, text)
  {
    SearchIsOccursEverywhere(text);
    if exists p :: p in WalltimeMessages && Search(p, text) then Some(OutOfWalltime)
    else if exists p :: p in OomMessages && Search(p, text) then Some(OutOfMemory)
    else None
  }

  /**
   * `parse_stderr`: the two loops over the signature sets, each returning on
   * the first signature found. The sets are visited in an arbitrary order;
   * the postcondition shows that the order does not change the result.
   */
  method ParseStderr(text: string) returns (r: Option<ExitKind>)
    ensures r == StderrSignal(text)
  {
    var pending := WalltimeMessages;
    while pending != {}
      invariant pending <= WalltimeMessages
      invariant forall p :: p in WalltimeMessages - pending ==> !Search(p, text)
      decreases pending
    {
      var message :| message in pending;
      if Search(message, text) {
        return Some(OutOfWalltime);
      }
      pending := pending - {message};
    }
    pending := OomMessages;
    while pending != {}
      invariant pending <= OomMessages
      invariant forall p :: p in OomMessages - pending ==> !Search(p, text)
      decreases pending
    {
      var message :| message in pending;
      if Search(message, text) {
        return Some(OutOfMemory);
      }
      pending := pending - {message};
    }
    return None;
  }

  // ---------------------------------------------------------------------------
  // Properties of the signatures

  /** The Slurm wall-time line wins wherever it stands, whatever else the text holds. */
  lemma {:induction false} SlurmTimeLimitWins(pre: string, post: string)
    ensures StderrSignal(pre + "DUE TO TIME LIMIT" + post) == Some(OutOfWalltime)
  {
    var text := pre + "DUE TO TIME LIMIT" + post;
    ContainsMiddle(pre, "DUE TO TIME LIMIT", post);
    SearchText("DUE TO TIME LIMIT", text);
    SearchIsOccurs(SlurmTimeout, text);
  }

  /** The PBS wall-time signature matches a gap on one line, and only there. */
  lemma {:induction false} PbsTimeoutLanguage(v: string)
    ensures MatchExact(PbsTimeout, v) <==>
              |v| >= 24 && v[..9] == "walltime " && v[|v| - 15..] == " exceeded limit"
              && SingleLine(v[9..|v| - 15])
  {
    GapLanguage("walltime ", " exceeded limit", v);
  }

  /** A PBS wall-time line is classified as a wall-time kill. */
  lemma {:induction false} PbsTimeoutDetected(pre: string, gap: string, post: string)
    requires SingleLine(gap)
    ensures StderrSignal(pre + ("walltime " + gap + " exceeded limit") + post) == Some(OutOfWalltime)
  {
    var v := "walltime " + gap + " exceeded limit";
    PbsTimeoutLanguage(v);
    assert v[..9] == "walltime " && v[|v| - 15..] == " exceeded limit" && v[9..|v| - 15] == gap;
    FoundAt(PbsTimeout, pre, v, post);
    SearchIsOccurs(PbsTimeout, pre + v + post);
  }

  /** The language of `[oO]ut [oO]f [mM]emory`: only the three initials may vary in case. */
  lemma {:induction false} GenericOomLanguage(v: string)
    ensures MatchExact(GenericOom, v) <==>
              |v| == 13 && v[0] in {'o', 'O'} && v[1..4] == "ut " && v[4] in {'o', 'O'}
              && v[5..7] == "f " && v[7] in {'m', 'M'} && v[8..] == "emory"
  {
    var p5: Pattern := [Text("emory")];
    var p4 := [OneOf({'m', 'M'})] + p5;
    var p3 := [Text("f ")] + p4;
    var p2 := [OneOf({'o', 'O'})] + p3;
    var p1 := [Text("ut ")] + p2;
    assert GenericOom == [OneOf({'o', 'O'})] + p1;
    ExactOneOf({'o', 'O'}, p1, v);
    if v != [] {
      var v1 := v[1..];
      ExactText("ut ", p2, v1);
      if |v1| >= 3 {
        var v2 := v1[3..];
        ExactOneOf({'o', 'O'}, p3, v2);
        if v2 != [] {
          var v3 := v2[1..];
          ExactText("f ", p4, v3);
          if |v3| >= 2 {
            var v4 := v3[2..];
            ExactOneOf({'m', 'M'}, p5, v4);
            if v4 != [] {
              TextLanguage("emory", v4[1..]);
              assert v4[1..] == v[8..];
            }
            assert v3[..2] == v[5..7] && v4 == v[7..];
          }
          assert v2 == v[4..];
        }
        assert v1[..3] == v[1..4];
      }
    }
  }

  /** Every capitalisation of the three initials is an out-of-memory signal. */
  lemma {:induction false} GenericOomAnyInitials(x: char, y: char, z: char, pre: string, post: string)
    requires x in {'o', 'O'} && y in {'o', 'O'} && z in {'m', 'M'}
    ensures Search(GenericOom, pre + ([x] + "ut " + [y] + "f " + [z] + "emory") + post)
    ensures StderrSignal(pre + ([x] + "ut " + [y] + "f " + [z] + "emory") + post) != None
  {
    var v := [x] + "ut " + [y] + "f " + [z] + "emory";
    GenericOomLanguage(v);
    FoundAt(GenericOom, pre, v, post);
    SearchIsOccurs(GenericOom, pre + v + post);
  }

  /** The generic signature is not case-insensitive past the initials. */
  lemma {:induction false} GenericOomIsCaseSensitive()
    ensures !Occurs(GenericOom, "OUT OF MEMORY")
  {
    var s := "OUT OF MEMORY";
    forall i, j | 0 <= i <= j <= |s| ensures !MatchExact(GenericOom, s[i..j]) {
      GenericOomLanguage(s[i..j]);
      if j - i == 13 {
        assert s[i..j] == s;
        assert s[1] == 'U';
      }
    }
  }

  /** `oom-kill` is an out-of-memory signal unless a wall-time signal is also present. */
  lemma {:induction false} OomKillDetected(pre: string, post: string)
    requires forall p :: p in WalltimeMessages ==> !Occurs(p, pre + "oom-kill" + post)
    ensures StderrSignal(pre + "oom-kill" + post) == Some(OutOfMemory)
  {
    var text := pre + "oom-kill" + post;
    ContainsMiddle(pre, "oom-kill", post);
    SearchText("oom-kill", text);
    SearchIsOccurs(OomKill, text);
  }

  /** Empty stderr carries no signal, so the `if stderr:` guard loses nothing. */
  lemma {:induction false} EmptyStderrNoSignal()
    ensures StderrSignal("") == None
  {
  }

  /** A newline inside the gap breaks the PBS wall-time signature: `.` does not match it. */
  lemma {:induction false} PbsTimeoutNeedsOneLine(gap: string)
    requires '\n' in gap
    ensures !MatchExact(PbsTimeout, "walltime " + gap + " exceeded limit")
  {
    var v := "walltime " + gap + " exceeded limit";
    PbsTimeoutLanguage(v);
    assert v[9..|v| - 15] == gap;
  }

  // ---------------------------------------------------------------------------
  // parse

  /**
   * What `parse` reads. The engine calls are abstracted: `stderr` is
   * `get_scheduler_stderr()`, `retrieved` is `retrieved.list_object_names()`,
   * and the two flags say whether copying the log file out of the retrieved
   * folder raised `ValueError` and whether storing it raised `ValidationError`.
   */
  datatype ParseInput = ParseInput(
    stderr: Option<string>,
    outputFilename: string,
    retrieved: seq<string>,
    copyRaisesValueError: bool,
    storeRaisesValidationError: bool)

  /**
   * How `parse` ends: it returns an exit code (`None` for success) and may
   * have attached the `logfile` output on the way, or it raises an exception
   * it does not catch.
   */
  datatype ParseOutcome = Returned(code: Option<ExitKind>, logfileOutput: bool) | Crashed

  /** The error recorded from stderr before the files are looked at: `None` when stderr is absent or empty. */
  function RecordedError(stderr: Option<string>): (r: Option<ExitKind>)
    ensures r.Some? ==> r.value == OutOfWalltime || r.value == OutOfMemory
    ensures stderr.None? || stderr.value == "" ==> r.None?
  {
    if stderr.Some? && stderr.value != [] then StderrSignal(stderr.value) else None
  }

  /** `set(files_expected) <= set(files_retrieved)`. */
  predicate FilesPresent(expected: seq<string>, retrieved: seq<string>) {
    forall f :: f in expected ==> f in retrieved
  }

  /**
   * `parse` as written, reading the initial `ExitCode(0)` as "no error
   * recorded". When copying fails and a stderr error was recorded, the first
   * `except` falls through to `output.store()` with `output` never assigned,
   * which raises `UnboundLocalError`.
   */
  function ParseAsWritten(i: ParseInput): (r: ParseOutcome)
    ensures r.Crashed? <==>
              i.outputFilename in i.retrieved && i.copyRaisesValueError && RecordedError(i.stderr).Some?
  {
    var error := RecordedError(i.stderr);
    if !FilesPresent([i.outputFilename], i.retrieved) then Returned(Some(MissingOutputFiles), false)
    else if i.copyRaisesValueError && error.None? then Returned(Some(ParsingFailed), false)
    else if i.copyRaisesValueError then Crashed
    else if i.storeRaisesValidationError && error.None? then Returned(Some(ParsingFailed), false)
    else Returned(error, true)
  }

  /**
   * `parse` as its comments intend: a copy or store failure after a
   * recorded stderr error is left to that error, which is returned.
   */
  function Parse(i: ParseInput): (r: ParseOutcome)
    ensures r.Returned?
    // a missing output file beats everything
    ensures i.outputFilename !in i.retrieved ==> r == Returned(Some(MissingOutputFiles), false)
    // with the file present, a recorded stderr error is what is returned
    ensures i.outputFilename in i.retrieved && RecordedError(i.stderr).Some? ==>
              r.code == RecordedError(i.stderr)
    ensures r.code == Some(ParsingFailed) <==>
              i.outputFilename in i.retrieved && RecordedError(i.stderr).None?
              && (i.copyRaisesValueError || i.storeRaisesValidationError)
    ensures r.code.None? <==>
              i.outputFilename in i.retrieved && RecordedError(i.stderr).None?
              && !i.copyRaisesValueError && !i.storeRaisesValidationError
    ensures r.logfileOutput <==>
              i.outputFilename in i.retrieved && !i.copyRaisesValueError
              && (!i.storeRaisesValidationError || RecordedError(i.stderr).Some?)
  {
    var error := RecordedError(i.stderr);
    if !FilesPresent([i.outputFilename], i.retrieved) then Returned(Some(MissingOutputFiles), false)
    else if i.copyRaisesValueError then
      (if error.None? then Returned(Some(ParsingFailed), false) else Returned(error, false))
    else if i.storeRaisesValidationError && error.None? then Returned(Some(ParsingFailed), false)
    else Returned(error, true)
  }

  /** The numeric exit status of a returned code; `None` is success, status 0. */
  function ExitStatus(code: Option<ExitKind>): (n: nat)
    ensures n == 0 <==> code.None?
    ensures n in {0, 300, 301, 400, 401}
  {
    ExitCodeValues();
    match code
    case None => 0
    case Some(k) => Status(k)
  }

  /** Only whether the file is among the retrieved names matters, not their order or repetition. */
  lemma {:induction false} RetrievedAsSet(i: ParseInput, other: seq<string>)
    requires forall f :: f in i.retrieved <==> f in other
    ensures Parse(i.(retrieved := other)) == Parse(i)
  {
  }

  /** Extra retrieved files never cause a failure. */
  lemma {:induction false} ExtraFilesHarmless(i: ParseInput, more: seq<string>)
    requires forall f :: f in i.retrieved ==> f in more
    ensures Parse(i).code != Some(MissingOutputFiles) ==> Parse(i.(retrieved := more)) == Parse(i)
  {
  }

  /** What is retrieved is exactly what the parser demands: the file check fails iff a listed file is absent. */
  lemma {:induction false} RetrieveListFeedsParser(codeUuid: string, options: Options, i: ParseInput)
    requires i.outputFilename == options.outputFilename
    ensures Parse(i).code == Some(MissingOutputFiles) <==>
              exists f :: f in PrepareForSubmission(codeUuid, options).retrieveList && f !in i.retrieved
  {
    var listed := PrepareForSubmission(codeUuid, options).retrieveList;
    assert options.outputFilename in listed;
  }

  /** A log file next to a timing file, with no stderr and no failure, is a success. */
  lemma {:induction false} LogAndTimingFilesSucceed()
    ensures Parse(ParseInput(None, LogFile, [LogFile, TimeFile], false, false)) == Returned(None, true)
  {
  }

  /** With nothing retrieved the log file is missing, whatever stderr says. */
  lemma {:induction false} NothingRetrievedIsMissing(stderr: Option<string>, copyFails: bool, storeFails: bool)
    ensures Parse(ParseInput(stderr, LogFile, [], copyFails, storeFails)).code == Some(MissingOutputFiles)
  {
  }

  // ---------------------------------------------------------------------------
  // The as-written `parse` against the intended one

  /** The two agree except when copying fails after a recorded stderr error, where the code crashes. */
  lemma {:induction false} AsWrittenDiffersOnlyOnCopyFailure(i: ParseInput)
    ensures ParseAsWritten(i) != Parse(i) <==>
              i.outputFilename in i.retrieved && i.copyRaisesValueError && RecordedError(i.stderr).Some?
    ensures ParseAsWritten(i) != Parse(i) ==> ParseAsWritten(i) == Crashed
  {
  }

  /** A Slurm time-out whose log file cannot be copied crashes `parse` instead of reporting the time-out. */
  lemma {:induction false} TimeoutWithUnreadableLogCrashes()
    ensures ParseAsWritten(ParseInput(Some("*** JOB 7 CANCELLED DUE TO TIME LIMIT ***"), LogFile, [LogFile], true, false))
              == Crashed
    ensures Parse(ParseInput(Some("*** JOB 7 CANCELLED DUE TO TIME LIMIT ***"), LogFile, [LogFile], true, false))
              == Returned(Some(OutOfWalltime), false)
  {
    assert "*** JOB 7 CANCELLED DUE TO TIME LIMIT ***" == "*** JOB 7 CANCELLED " + "DUE TO TIME LIMIT" + " ***";
    SlurmTimeLimitWins("*** JOB 7 CANCELLED ", " ***");
  }
}
