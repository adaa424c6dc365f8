# BigDFT plugin for AiiDA: decision logic

This project models the three pieces of decision logic in the AiiDA plugin
for the BigDFT electronic-structure code, and proves properties of them in
Dafny:

- **Stderr failure classification** (`BigDFTParser.parse_stderr`). The
  scheduler's stderr text is searched for two fixed groups of regular
  expressions. A wall-time signature gives `ERROR_OUT_OF_WALLTIME`. Failing
  that, an out-of-memory signature gives `ERROR_OUT_OF_MEMORY`. Otherwise
  the result is `None`. The signatures use only literal runs, one-character
  classes such as `[oO]` and the gap `.*`. `Patterns` models that fragment of
  Python's `re` in two ways. `Search` is the operational reading of
  `re.search`: it tries every start position and backtracks over each gap.
  `MatchExact`/`Occurs` is the declarative reading: some substring is in the
  pattern's language. `SearchIsOccurs` proves the two agree.
  `Parsers.ParseStderr` keeps the two loops of the source. Each set is
  visited in an arbitrary order (`:|`), and its postcondition shows that the
  order cannot change the result.
- **Output reconciliation** (`BigDFTParser.parse`), as a pure decision
  function. Its inputs are the stderr text, the output filename, the
  retrieved names and two flags: copying the log file raised `ValueError`,
  and storing it raised `ValidationError`. Its output is the exit code it
  returns and whether the `logfile` output was attached.
- **Orthorhombic precondition** (`check_ortho`). A structure whose cell
  angles are exactly `[90.0, 90.0, 90.0]` is returned unchanged. Any other
  structure makes the call raise `ValueError`, or `NotImplementedError` when
  `coerce` is set.
- **Exit-code table, option defaults and retrieve list**
  (`BigDFTCalculation.define` and `prepare_for_submission`). The status
  numbers the parser returns come from this table. The retrieve list is
  tied to the file the parser requires.

Files: `wrappers.dfy` (Option/Result), `calculations.dfy`, `patterns.dfy`,
`pattern_shapes.dfy` (the languages of the signature shapes), `parsers.dfy`
and `preprocess.dfy`.

Facts about the code that the model keeps:

- the angle test is exact equality of the three floats with
  `[90.0, 90.0, 90.0]`, with no tolerance;
- the retrieve list is the output filename alone;
- only the initials of the three words of the generic out-of-memory phrase
  vary in case;
- with coercion the call raises an error naming the variant that the lattice
  library reports for the cell.

## Model

| member | source | states |
|---|---|---|
| `Calculations.EntryOf` | aiida_bigdft_new/calculations.py:69-88 | every exit kind has a registration in the table, and it carries that kind |
| `Calculations.KindOfStatus` | aiida_bigdft_new/calculations.py:69-88 | a status found in the table belongs to a kind whose status it is |
| `Calculations.KindOfName` | aiida_bigdft_new/calculations.py:69-88 | a label found in the table belongs to a kind registered under it |
| `Calculations.ExitCodeValues` | aiida_bigdft_new/calculations.py:69-88 | MISSING_OUTPUT_FILES is 300, PARSING_FAILED 301, OUT_OF_WALLTIME 400, OUT_OF_MEMORY 401, each under its label |
| `Calculations.StatusRoundTrip` | aiida_bigdft_new/calculations.py:69-88 | looking up a kind's status gives the kind back |
| `Calculations.NameRoundTrip` | aiida_bigdft_new/calculations.py:69-88 | looking up a kind's label gives the kind back |
| `Calculations.StatusesDistinct` | aiida_bigdft_new/calculations.py:69-88 | two kinds share a status only if they are the same kind (the four statuses are pairwise distinct) |
| `Calculations.StatusFamilies` | aiida_bigdft_new/calculations.py:69-88 | the 3xx statuses are exactly the output-file problems; the 4xx ones are exactly the scheduler kills |
| `Calculations.DefaultOptions` | aiida_bigdft_new/calculations.py:62-66 | the default output filename is `log.yaml` |
| `Calculations.PrepareForSubmission` | aiida_bigdft_new/calculations.py:90-115 | one code entry with the code's uuid and MPI flag, an empty local copy list, and a retrieve list that holds exactly the configured output filename |
| `Calculations.DefaultRetrieveList` | aiida_bigdft_new/calculations.py:113 | with the default options the retrieve list is `["log.yaml"]` |
| `Patterns.PrefixWitness` | aiida_bigdft_new/parsers.py:58-63 | a prefix match found by backtracking ends at a prefix that is in the pattern's language |
| `Patterns.ExactPrefix` | aiida_bigdft_new/parsers.py:58-63 | any prefix in the pattern's language is found by the backtracking matcher |
| `Patterns.SearchWitness` | aiida_bigdft_new/parsers.py:58-63 | a successful search has a start position where the pattern matches |
| `Patterns.PrefixSearch` | aiida_bigdft_new/parsers.py:58-63 | a match at any start position makes the search succeed |
| `Patterns.SearchIsOccurs` | aiida_bigdft_new/parsers.py:58-63 | `re.search` succeeds exactly when some substring of the text is in the pattern's language |
| `Patterns.NoSearchInEmpty` | aiida_bigdft_new/parsers.py:43-57 | a pattern that starts with a literal run or a class is never found in the empty text |
| `PatternShapes.TextLanguage` | aiida_bigdft_new/parsers.py:43-57 | a literal pattern matches its own text and nothing else |
| `PatternShapes.SearchText` | aiida_bigdft_new/parsers.py:43-57 | searching for a literal pattern is substring search |
| `PatternShapes.TailGapLanguage` | aiida_bigdft_new/parsers.py:47 | `.*b` matches exactly a newline-free gap followed by `b` |
| `PatternShapes.GapLanguage` | aiida_bigdft_new/parsers.py:47 | `a.*b` matches exactly `a`, a newline-free gap, then `b` |
| `PatternShapes.FoundAt` | aiida_bigdft_new/parsers.py:58-63 | a piece of text in the pattern's language is found wherever it is embedded |
| `Parsers.StderrSignal` | aiida_bigdft_new/parsers.py:37-64 | wall-time code iff some wall-time signature occurs; out-of-memory code iff none does and some out-of-memory signature occurs; `None` iff no signature of either group occurs |
| `Parsers.ParseStderr` | aiida_bigdft_new/parsers.py:58-64 | the two early-return loops, visiting each set in any order, return exactly `StderrSignal` of the text |
| `Parsers.SlurmTimeLimitWins` | aiida_bigdft_new/parsers.py:44 | any text containing `DUE TO TIME LIMIT` is a wall-time kill, even if it also contains out-of-memory text |
| `Parsers.PbsTimeoutLanguage` | aiida_bigdft_new/parsers.py:47 | `walltime .* exceeded limit` matches exactly those strings that start with `walltime `, end with ` exceeded limit` and have no newline between |
| `Parsers.PbsTimeoutDetected` | aiida_bigdft_new/parsers.py:47 | a PBS wall-time line inside any text is a wall-time kill |
| `Parsers.PbsTimeoutNeedsOneLine` | aiida_bigdft_new/parsers.py:47 | a newline inside the gap defeats the PBS wall-time pattern, because `.` does not match a newline |
| `Parsers.GenericOomLanguage` | aiida_bigdft_new/parsers.py:51 | `[oO]ut [oO]f [mM]emory` matches exactly the 13-character phrase with any case of the three initials |
| `Parsers.GenericOomAnyInitials` | aiida_bigdft_new/parsers.py:51 | every capitalisation of the initials ("Out Of Memory", "out of memory", ...) is found anywhere in a text, and the text then carries a signal |
| `Parsers.GenericOomIsCaseSensitive` | aiida_bigdft_new/parsers.py:51 | "OUT OF MEMORY" does not match the generic signature |
| `Parsers.OomKillDetected` | aiida_bigdft_new/parsers.py:52 | text containing `oom-kill` and no wall-time signature is an out-of-memory kill |
| `Parsers.EmptyStderrNoSignal` | aiida_bigdft_new/parsers.py:75-77 | empty stderr carries no signal, so skipping it under `if stderr:` changes nothing |
| `Parsers.RecordedError` | aiida_bigdft_new/parsers.py:73-79 | the recorded error is only ever a wall-time or out-of-memory code, and is `None` when stderr is absent or empty |
| `Parsers.ParseAsWritten` | aiida_bigdft_new/parsers.py:96-107 | the code as written crashes exactly when the file is present, copying it fails and a stderr error was recorded |
| `Parsers.Parse` | aiida_bigdft_new/parsers.py:66-118 | it never crashes. A missing output file beats everything. With the file present, a recorded stderr code is returned. PARSING_FAILED happens iff the file is present, nothing was recorded and copy or store failed. Success happens iff the file is present, nothing was recorded and nothing failed. The logfile is attached iff it was copied and either stored or an error was recorded |
| `Parsers.ExitStatus` | aiida_bigdft_new/parsers.py:118 | success is status 0, and the only statuses `parse` can return are 0, 300, 301, 400 and 401 |
| `Parsers.RetrievedAsSet` | aiida_bigdft_new/parsers.py:86-89 | only the set of retrieved names matters, not their order or repetition |
| `Parsers.ExtraFilesHarmless` | aiida_bigdft_new/parsers.py:87-89 | once the output file is found, retrieving more files changes nothing in the result |
| `Parsers.RetrieveListFeedsParser` | aiida_bigdft_new/calculations.py:113 | with the same output filename, `parse` reports missing files iff some name on the retrieve list was not retrieved |
| `Parsers.LogAndTimingFilesSucceed` | aiida_bigdft_new/parsers.py:86-118 | `log.yaml` retrieved next to `time.yaml`, with no stderr and no failure, is a success with the logfile attached |
| `Parsers.NothingRetrievedIsMissing` | aiida_bigdft_new/parsers.py:86-92 | with nothing retrieved the result is MISSING_OUTPUT_FILES, whatever stderr holds |
| `Parsers.AsWrittenDiffersOnlyOnCopyFailure` | aiida_bigdft_new/parsers.py:96-114 | the code as written and the intended parse agree on every input except a copy failure after a recorded stderr error, where the code as written crashes |
| `Parsers.TimeoutWithUnreadableLogCrashes` | aiida_bigdft_new/parsers.py:96-107 | a Slurm time-out whose log file cannot be copied crashes as written, but the intended parse reports OUT_OF_WALLTIME |
| `Preprocess.CoerceMessage` | aiida_bigdft_new/utils/preprocess.py:16-18 | the coercion error reads "cannot transform to orthogonal for " followed by the variant |
| `Preprocess.CheckOrtho` | aiida_bigdft_new/utils/preprocess.py:1-18 | it returns normally iff the three angles are right angles, and then returns its own argument. It raises the `ValueError` "non orthorhombic cells are not supported" iff the angles are not right angles and `coerce` is false. It raises a `NotImplementedError` naming the variant iff the angles are not right angles and `coerce` is true |
| `Preprocess.ListTestIsRightAngled` | aiida_bigdft_new/utils/preprocess.py:5 | comparing the angle list with `[90.0, 90.0, 90.0]` is the same as three angles each exactly 90 |
| `Preprocess.OutcomeIgnoresLengthsAndSites` | aiida_bigdft_new/utils/preprocess.py:5-18 | structures with equal angles get the same outcome kind, whatever their lengths, atoms and lattice variants, and without coercion the same `ValueError` |
| `Preprocess.DefaultIgnoresVariant` | aiida_bigdft_new/utils/preprocess.py:1-8 | with the default `coerce=False` the lattice variant cannot affect the result |
| `Preprocess.CheckIdempotent` | aiida_bigdft_new/utils/preprocess.py:5-6 | checking a structure that passed gives the same result again |
| `Preprocess.CubicPassesHexagonalFails` | aiida_bigdft_new/utils/preprocess.py:5-18 | a cubic cell passes. A hexagonal cell raises `ValueError` without coercion and `NotImplementedError` with it |

## Left out

- The AiiDA engine: `ExitCode` objects, `self.out`, `self.logger`, `self.exit_codes`, node storage and `self.retrieved`. `parse` takes its effects on these as inputs (the two failure flags) and returns what it would pass on (the exit kind, whether the logfile was attached). Log messages are not modelled.
- The file copy in `parse` (parsers.py:96-99) and `SinglefileData.store`. These are I/O, so only whether they raise is an input.
- The initial `ExitCode(0)` at parsers.py:73 is modelled as "no error recorded". Whether that object is falsy is decided by AiiDA, which is not part of this model. The model assumes the intended reading: with no stderr, a copy or store failure gives PARSING_FAILED. If `ExitCode(0)` were truthy instead, the `UnboundLocalError` crash under "## Findings" would also happen with empty stderr, and a store failure with empty stderr would return success.
- `get_bravais_lattice` (preprocess.py:10-12) is a foreign ASE call. Its variant is an opaque string input, and an exception it might raise is not modelled.
- `print` calls and the constructor's parser-class check (parsers.py:24-35). The latter depends on the engine's plugin registry.
- Input declarations in `define` other than the output filename and exit codes: `structure`, `posinp`, `jobname`, `parameters`, their types, the class file names other than `log.yaml` and `time.yaml`, and the resource and parser-name defaults. None of them takes part in a decision the model states.
- Full regular-expression semantics. Only literal runs, one-character classes and `.*` are modelled, since the signatures use nothing else.
- Floating point: angles are `real`, and the test is the exact list equality of the source.
- aiida_bigdft_new/data/BigDFTFile.py (YAML loading and the foreign `Logfile`), examples/example_01.py (a submission driver) and tests/test_file_access.py (a database round trip) are not part of this model. They are I/O and library wrapping.

## Findings

| source | as written | input that shows it | evidently intended | confidence | as-written member | corrected member |
|---|---|---|---|---|---|---|
| aiida_bigdft_new/parsers.py:101-107 | when copying the log file raises `ValueError` and a stderr error is recorded, the `except` branch does not return, and `output.store()` runs with `output` never assigned, raising `UnboundLocalError` | stderr `*** JOB 7 CANCELLED DUE TO TIME LIMIT ***`, `log.yaml` retrieved, copying it raises `ValueError` | the comment "failure here will be handled later": return the recorded ERROR_OUT_OF_WALLTIME / ERROR_OUT_OF_MEMORY | high (not executed) | `Parsers.TimeoutWithUnreadableLogCrashes` | `Parsers.Parse` |
