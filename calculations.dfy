/**
 * The calculation plugin `BigDFTCalculation` (aiida_bigdft_new/calculations.py):
 * the exit codes it registers in `define`, the option defaults it declares and
 * the `CalcInfo` record that `prepare_for_submission` hands to the engine.
 */
module Calculations {
  import opened Wrappers

  /** The four failure kinds `define` registers with the engine. */
  datatype ExitKind = MissingOutputFiles | ParsingFailed | OutOfWalltime | OutOfMemory

  /** One `spec.exit_code(status, name, message=...)` registration. */
  datatype ExitCodeEntry = ExitCodeEntry(kind: ExitKind, status: nat, name: string, message: string)

  /** The registrations of `define`, in the order they are made. */
  const ExitCodeTable: seq<ExitCodeEntry> := [
    ExitCodeEntry(MissingOutputFiles, 300, "ERROR_MISSING_OUTPUT_FILES",
                  "Calculation did not produce all expected output files."),
    ExitCodeEntry(ParsingFailed, 301, "ERROR_PARSING_FAILED", "Parsing error."),
    ExitCodeEntry(OutOfWalltime, 400, "ERROR_OUT_OF_WALLTIME",
                  "Calculation did not finish because of a walltime issue."),
    ExitCodeEntry(OutOfMemory, 401, "ERROR_OUT_OF_MEMORY",
                  "Calculation did not finish because of memory limit.")
  ]

  /** Index of the first entry of `t` satisfying `matches`, if any. */
  function FindEntry(t: seq<ExitCodeEntry>, matches: ExitCodeEntry -> bool): (r: Option<nat>)
    ensures r.Some? ==> r.value < |t| && matches(t[r.value])
    ensures r.Some? ==> forall i :: 0 <= i < r.value ==> !matches(t[i])
    ensures r.None? ==> forall i :: 0 <= i < |t| ==> !matches(t[i])
  {
    if t == [] then None
    else if matches(t[0]) then Some(0)
    else match FindEntry(t[1..], matches)
      case None => None
      case Some(i) => Some(i + 1)
  }

  /** The registration for kind `k`: what `self.exit_codes.<name>` resolves to. */
  function EntryOf(k: ExitKind): (e: ExitCodeEntry)
    ensures e in ExitCodeTable && e.kind == k
  {
    var i := FindEntry(ExitCodeTable, (e: ExitCodeEntry) => e.kind == k);
    // every kind is registered
    assert i.Some? by {
      assert ExitCodeTable[0].kind == MissingOutputFiles && ExitCodeTable[1].kind == ParsingFailed;
      assert ExitCodeTable[2].kind == OutOfWalltime && ExitCodeTable[3].kind == OutOfMemory;
    }
    ExitCodeTable[i.value]
  }

  /** Numeric status of kind `k`. */
  function Status(k: ExitKind): nat {
    EntryOf(k).status
  }

  /** The kind registered under a numeric status, if any. */
  function KindOfStatus(n: int): (r: Option<ExitKind>)
    ensures r.Some? ==> Status(r.value) == n
  {
    match FindEntry(ExitCodeTable, (e: ExitCodeEntry) => e.status == n)
    case None => None
    case Some(i) => Some(ExitCodeTable[i].kind)
  }

  /** The kind registered under a name, as attribute access `exit_codes.<name>` finds it. */
  function KindOfName(name: string): (r: Option<ExitKind>)
    ensures r.Some? ==> EntryOf(r.value).name == name
  {
    match FindEntry(ExitCodeTable, (e: ExitCodeEntry) => e.name == name)
    case None => None
    case Some(i) => Some(ExitCodeTable[i].kind)
  }

  /** The statuses and names `define` gives to the four kinds. */
  lemma ExitCodeValues()
    ensures Status(MissingOutputFiles) == 300 && EntryOf(MissingOutputFiles).name == "ERROR_MISSING_OUTPUT_FILES"
    ensures Status(ParsingFailed) == 301 && EntryOf(ParsingFailed).name == "ERROR_PARSING_FAILED"
    ensures Status(OutOfWalltime) == 400 && EntryOf(OutOfWalltime).name == "ERROR_OUT_OF_WALLTIME"
    ensures Status(OutOfMemory) == 401 && EntryOf(OutOfMemory).name == "ERROR_OUT_OF_MEMORY"
  {
  }

  /** Each status identifies its kind: looking a kind's status up gives the kind back. */
  lemma StatusRoundTrip(k: ExitKind)
    ensures KindOfStatus(Status(k)) == Some(k)
  {
    ExitCodeValues();
  }

  /** Each name identifies its kind. */
  lemma NameRoundTrip(k: ExitKind)
    ensures KindOfName(EntryOf(k).name) == Some(k)
  {
    ExitCodeValues();
  }

  /** The four statuses are pairwise distinct. */
  lemma StatusesDistinct(k1: ExitKind, k2: ExitKind)
    ensures Status(k1) == Status(k2) <==> k1 == k2
  {
    StatusRoundTrip(k1);
    StatusRoundTrip(k2);
  }

  /** The 3xx statuses are the output-file problems, the 4xx ones the scheduler kills. */
  lemma StatusFamilies(k: ExitKind)
    ensures Status(k) / 100 == 3 <==> k == MissingOutputFiles || k == ParsingFailed
    ensures Status(k) / 100 == 4 <==> k == OutOfWalltime || k == OutOfMemory
  {
    ExitCodeValues();
  }

  // Class-level file names of `BigDFTCalculation`.
  const LogFile: string := "log.yaml"
  const TimeFile: string := "time.yaml"

  /** The `metadata.options` the model reads. */
  datatype Options = Options(outputFilename: string, withMpi: bool)

  /** Options as `define` defaults them: `output_filename` is the class's log file. */
  function DefaultOptions(withMpi: bool): (o: Options)
    ensures o.outputFilename == "log.yaml"
    ensures o.withMpi == withMpi
  {
    Options(LogFile, withMpi)
  }

  /** `datastructures.CodeInfo` as filled by `prepare_for_submission`. */
  datatype CodeInfo = CodeInfo(codeUuid: string, withMpi: bool)

  /** `datastructures.CalcInfo` as filled by `prepare_for_submission`. */
  datatype CalcInfo = CalcInfo(codesInfo: seq<CodeInfo>, localCopyList: seq<string>, retrieveList: seq<string>)

  /** Builds the record handed to the engine; the code's uuid is an input. */
  function PrepareForSubmission(codeUuid: string, options: Options): (c: CalcInfo)
    ensures |c.codesInfo| == 1 && c.codesInfo[0].codeUuid == codeUuid
    ensures c.codesInfo[0].withMpi == options.withMpi
    ensures c.localCopyList == []
    ensures forall f :: f in c.retrieveList <==> f == options.outputFilename
    ensures |c.retrieveList| == 1
  {
    CalcInfo([CodeInfo(codeUuid, options.withMpi)], [], [options.outputFilename])
  }

  /** With the default options, exactly `log.yaml` is retrieved. */
  lemma DefaultRetrieveList(codeUuid: string, withMpi: bool)
    ensures PrepareForSubmission(codeUuid, DefaultOptions(withMpi)).retrieveList == ["log.yaml"]
  {
  }
}
