# jconvert in Dafny

jconvert is a command-line tool that finds every `.json` file under a folder and merges
them into one JSON Lines (`.jsonl`) file. It writes one serialised document per line, in
file order. Options let it:

- keep only some fields of each document (`--fields`), where a dotted selector such as
  `user.name` reaches into nested objects and arrays;
- filter the files by a glob pattern on their names (`--pattern`);
- choose what happens to an existing output file (`--mode` overwrite, append or error);
- only list the files (`--dry-run`);
- only check that every file parses (`--validate-only`).

A statistics object counts successes, errors, invalid files and the bytes read and
written.

This project models that behaviour and proves properties of the model. The modules are:

- `Wrappers` (`wrappers.dfy`): `Option` and `Result`.
- `Text` (`text.dfy`): the Rust string operations the tool relies on. These are
  splitting on one character, trimming Unicode whitespace, replacing a character,
  decimal rendering with and without zero padding, ASCII case-insensitive comparison,
  and UTF-8 byte length.
- `JsonValue` (`json.dfy`): a JSON document as serde_json's `Value` holds it. A number
  keeps serde_json's three forms: unsigned 64-bit, negative 64-bit, and a binary64
  float given by its bit pattern, which is never an infinity or NaN.
- `Processor` (`processor.dfy`), modelling `src/processor.rs`:
  - the dotted-path walk (`get_nested_field`) and field selection (`extract_fields`),
    each as a specification function plus a method with the source's loop, proved
    equal;
  - the processing options and their builders;
  - the classification of one file into a `ProcessResult`.
- `Stats` (`stats.dfy`), modelling `src/stats.rs`:
  - the `Statistics` counters, as a class whose methods update its fields;
  - the integer logic of `format_bytes` and `format_duration`.
- `Cli` (`cli.dfy`), modelling `src/cli.rs`: `WriteMode` and its display names, and
  `Args::get_fields`.
- `Pipeline` (`pipeline.dfy`), modelling `src/main.rs`:
  - file collection: the extension test follows `Path::extension`, and the glob is a
    predicate;
  - the output-mode check, and the output file as a class that is opened to append or
    to truncate;
  - the conversion loop and the validation loop, each a method proved against
    functions of the results;
  - the early returns of `main`.

Things the model takes as inputs instead of computing:

- reading and parsing a file arrives as a `LoadOutcome`: open failed, parse failed, or
  the parsed document;
- serialisation is a function parameter;
- the directory walk is a list of entries;
- the file system is a function from path to `FileView` (metadata length and load
  outcome);
- the error the system gives when the output file is opened, if any, is a field of
  the output file.

Files are processed in order. rayon's `collect` keeps that order, and the validation
loop is taken sequentially.

## Model

| member | source | states |
|---|---|---|
| Text.Split | src/cli.rs:113 | `str::split(',')` yields one more piece than there are separators, and no piece contains the separator |
| Text.JoinSplit | src/cli.rs:113 | splitting loses nothing: joining the pieces with the separator gives the input back |
| Text.SplitNoSeparator | src/cli.rs:113 | a string without the separator splits into itself alone |
| Text.SplitAtSeparator | src/cli.rs:113 | the pieces of `a + sep + b` are the pieces of `a` followed by those of `b`, in order |
| Text.SplitJoin | src/cli.rs:113 | splitting undoes joining for separator-free pieces |
| Text.SplitTerminated | src/main.rs:287 | lines each followed by a newline split back into those lines plus one empty piece |
| Text.Replace | src/processor.rs:217 | `replace('.', "_")` keeps the length and changes exactly the `.` characters |
| Text.TrimStart | src/cli.rs:114 | the longest suffix not starting with whitespace; everything removed is whitespace |
| Text.TrimEnd | src/cli.rs:114 | the longest prefix not ending with whitespace; everything removed is whitespace |
| Text.Trim | src/cli.rs:114 | the trimmed string has no whitespace at either end |
| Text.TrimAbsent | src/cli.rs:114 | trimming only removes characters: one absent before is absent after |
| Text.TrimUnchanged | src/cli.rs:114 | a string with no whitespace at its ends is its own trim |
| Text.NatToString | src/stats.rs:221 | `{}` of an unsigned integer is non-empty and all digits, with a leading zero only for 0, and a single digit exactly below 10 |
| Text.DecimalRoundTrip | src/stats.rs:221 | reading back the decimal rendering of `n` gives `n` |
| Text.DecimalLeadingZeros | src/stats.rs:239 | leading zeros do not change the value of a numeral |
| Text.NumeralWidth | src/stats.rs:239 | numbers below 1000 render in at most three digits, larger ones in more |
| Text.ZeroPad3 | src/stats.rs:239 | `{:03}` is exactly three digits below 1000 and always reads back as the number |
| Text.Utf8Len | src/main.rs:281 | `String::len` lies between one and four bytes per character |
| Text.Utf8LenAppend | src/main.rs:281 | the byte length of a concatenation is the sum of the byte lengths |
| Processor.ParseUsize | src/processor.rs:250 | `parse::<usize>` succeeds iff the text after one optional '+' is a non-empty digit string whose value is at most `usize::MAX`, and then gives that value; out-of-range numerals are errors |
| Processor.ParseUsizeRoundTrip | src/processor.rs:250 | every `usize` index reads back from its decimal form, with or without '+' |
| Processor.LookupAppend | src/processor.rs:239-261 | walking a path in two legs is walking the first leg and then the second from where it ended; a miss stops the walk |
| Processor.LookupNest | src/processor.rs:239-261 | in the document built along a key path, walking that path finds the value put there |
| Processor.GetNestedField | src/processor.rs:239-261 | the loop that steps `current` down one segment at a time returns exactly the walk's result, "not found" included |
| Processor.FlatKey | src/processor.rs:217 | the flattened key has no '.', has the same length, and keeps every other character; a bare key is unchanged |
| Processor.Selected | src/processor.rs:210-224 | every key of the selection is the flattened key of some selector |
| Processor.ExtractFields | src/processor.rs:208-236 | objects reduce to keys that some selector names; arrays keep their length and map every element; other values are unchanged |
| Processor.Extract | src/processor.rs:208-236 | the `new_map` loop builds exactly the selection of `ExtractFields` |
| Processor.BareSelectorLookup | src/processor.rs:214-222 | for a dot-free selector the nested walk is a plain key lookup |
| Processor.SelectedKeys | src/processor.rs:212-223 | a key is in the selection iff some selector flattens to it and resolves to a value |
| Processor.SelectedValue | src/processor.rs:212-223 | the value under a key is that of the last selector that flattens to it and resolves; selectors that resolve to nothing leave the key absent, not null |
| Processor.SelectedBareKey | src/processor.rs:220-221 | a bare selector that no other selector collides with is present iff the source has the key, with the same value |
| Processor.FlattenNested | src/processor.rs:214-219 | a dotted selector puts the nested value under its flattened key |
| Processor.NewOptions | src/processor.rs:78-83 | the mmap threshold is 10 MiB; no fields, not pretty, not validation-only |
| Processor.WithFields | src/processor.rs:86-89 | sets the selectors and leaves the other options unchanged |
| Processor.WithPretty | src/processor.rs:92-95 | sets `pretty` and leaves the other options unchanged |
| Processor.WithValidateOnly | src/processor.rs:98-101 | sets `validate_only` and leaves the other options unchanged |
| Processor.SuccessResult | src/processor.rs:30-38 | a success carries its line, no error, and is valid; path and size pass through |
| Processor.FailureResult | src/processor.rs:41-49 | a failure carries its error, no line, and is invalid; path and size pass through |
| Processor.ValidResult | src/processor.rs:52-60 | a validation success carries neither line nor error and is valid |
| Processor.WellShapedExclusive | src/processor.rs:30-60 | the three result shapes exclude each other: never both a line and an error, valid iff no error |
| Processor.ErrorMessage | src/error.rs:23-33 | each file error's message is its kind's words, the file in parentheses, ": " and the reason, at fixed positions |
| Processor.ErrorMessageKinds | src/error.rs:23-33 | equal messages come from errors of the same kind |
| Processor.OutputValue | src/processor.rs:147-150 | with no selectors the document is serialised as parsed; with selectors an object keeps only keys some selector flattens to, an array keeps its length, and a scalar is unchanged |
| Processor.ProcessFileInternal | src/processor.rs:128-164 | open and parse failures become `FileOpenError` and `ParseError` with the file and reason; when validating, an empty line; otherwise the serializer's line, or `SerializeError` with its reason |
| Processor.ProcessFile | src/processor.rs:112-125 | always one of the three shapes, with path and metadata size (0 when missing) passed through; open and parse failures, validation and serialisation each map to their own outcome |
| Processor.ValidateFile | src/processor.rs:270-273 | a validation result never carries a line and keeps path and metadata size (0 when missing); it is valid iff the file parsed, and otherwise carries the open or parse failure's message |
| Stats.Statistics.constructor | src/stats.rs:30-36 | the total is set and every counter starts at zero |
| Stats.Statistics.IncrementSuccess | src/stats.rs:39-41 | the success count grows by one; nothing else changes |
| Stats.Statistics.IncrementError | src/stats.rs:44-46 | the error count grows by one; nothing else changes |
| Stats.Statistics.IncrementValidationFailed | src/stats.rs:49-51 | the validation-failure count grows by one; nothing else changes |
| Stats.Statistics.AddBytesRead | src/stats.rs:54-56 | the read total grows by exactly the given bytes; nothing else changes |
| Stats.Statistics.AddBytesWritten | src/stats.rs:59-61 | the written total grows by exactly the given bytes; nothing else changes |
| Stats.Statistics.GetSuccessCount | src/stats.rs:64-66 | returns the current success count and changes nothing |
| Stats.Statistics.GetErrorCount | src/stats.rs:69-71 | returns the current error count and changes nothing |
| Stats.Statistics.GetValidationFailed | src/stats.rs:74-76 | returns the current validation-failure count and changes nothing |
| Stats.UnitFor | src/stats.rs:209-222 | the unit is chosen by the thresholds 1024, 1024² and 1024³, largest first; for non-zero bytes below GB the exact quotient is in [1, 1024), though two-decimal rounding can print it as 1024.00 |
| Stats.FormatBytes | src/stats.rs:209-223 | below 1 KiB the text is the count's canonical numeral (no leading zero except for 0) followed by " B" and reads back as the count; above, the text is fractional in the chosen unit |
| Stats.FormatBytesExamples | src/stats.rs:250-258 | "0 B", "500 B" and "1023 B"; 1024 is in KB, 1048576 in MB and 1073741824 in GB |
| Stats.Parts | src/stats.rs:226-243 | from an hour on: hours, and minutes below 60 with seconds dropped; from a minute on: minutes and seconds with `mins*60+secs == secs`; below that: seconds with milliseconds, or milliseconds alone |
| Stats.FormatDuration | src/stats.rs:226-243 | the text ends in the unit of its branch: "분" from an hour on, "초" from one second on, "ms" below; with FormatDurationReadsBack it reads back as its hours and minutes, minutes and seconds, seconds and milliseconds, or milliseconds |
| Stats.FormatDurationReadsBack | src/stats.rs:226-243 | from an hour on the text is the canonical numerals of `secs/3600` and `(secs%3600)/60` around "시간 " and "분"; from a minute on those of `secs/60` and `secs%60` around "분 " and "초"; below a minute the text reads back as the seconds, with no leading zero, and exactly three millisecond digits; at zero seconds as the milliseconds, with no leading zero unless 0, followed by "ms" |
| Stats.FormatDurationExamples | src/stats.rs:261-266 | 0.5 s is "500ms", 5 s is "5.000초", 65 s is "1분 5초", 3665 s is "1시간 1분"; also 7380 s is "2시간 3분" and 600 s is "10분 0초" |
| Cli.ModeName | src/cli.rs:20-28 | each write mode prints as its capitalised name |
| Cli.ModeNameInjective | src/cli.rs:20-28 | distinct modes print differently |
| Cli.TrimmedPieces | src/cli.rs:114-115 | trimming and dropping empties keeps at most as many pieces, each a selector (non-empty, no whitespace at the ends) |
| Cli.TrimmedPiecesAppend | src/cli.rs:113-116 | pieces are handled one by one, so concatenated inputs give concatenated outputs in order |
| Cli.TrimmedPiecesMembers | src/cli.rs:114-115 | a string comes out iff it is the non-empty trim of some piece |
| Cli.TrimmedPiecesAll | src/cli.rs:114-115 | when no piece trims to nothing, every piece comes out trimmed at its own position |
| Cli.TrimmedPiecesNoComma | src/cli.rs:113-114 | comma-free pieces give comma-free selectors |
| Cli.TrimmedPiecesSelectors | src/cli.rs:114-115 | pieces that are already selectors pass through unchanged |
| Cli.GetFields | src/cli.rs:111-118 | None iff no `--fields`; at most commas+1 selectors, each non-empty, trimmed and comma-free |
| Cli.GetFieldsConcat | src/cli.rs:113-116 | the selectors of "a,b" are those of "a" followed by those of "b" |
| Cli.GetFieldsSingle | src/cli.rs:111-118 | a comma-free argument gives its trim, or nothing when that is empty |
| Cli.GetFieldsJoin | src/cli.rs:111-118 | selectors joined with commas parse back to the same selectors, in order |
| Pipeline.LastIndexOf | src/main.rs:153-154 | the position of the last occurrence, or None iff the character is absent |
| Pipeline.Extension | src/main.rs:153-155 | `Path::extension`: none for "..", for names without a '.' after the first character; otherwise the dot-free text after the last '.', after a non-empty stem |
| Pipeline.IsJsonName | src/main.rs:152-158 | the extension test accepts a name iff it is at least one character followed by ".json" in any ASCII case |
| Pipeline.ExtensionOfStem | src/main.rs:153-155 | the extension of `stem.ext` is `ext` for any non-empty stem, except for the name ".." |
| Pipeline.JsonNameAccepted | src/main.rs:152-158 | "x.json" and "x.JSON" pass the ASCII-case-insensitive extension test |
| Pipeline.JsonNameRejected | src/main.rs:152-158 | "x.txt" and "x.jsonl" do not pass |
| Pipeline.HiddenJsonNotCollected | src/main.rs:152-158 | ".json" has no extension and is not collected |
| Pipeline.Matches | src/pattern.rs:51-56 | without a pattern every name matches; with one, the compiled glob decides |
| Pipeline.CollectJsonFiles | src/main.rs:148-167 | never more files than walk entries |
| Pipeline.CollectJsonFilesMembers | src/main.rs:148-167 | a path is collected iff some walk entry with that path is a file with a JSON extension whose name the pattern accepts |
| Pipeline.CollectJsonFilesAppend | src/main.rs:148-167 | collection keeps walk order |
| Pipeline.CheckOutputMode | src/main.rs:322-327 | fails iff the mode is Error and the output exists, with the output-exists error |
| Pipeline.OutputFile.Open | src/main.rs:330-339 | when the system refuses, the error is returned and the file is untouched; otherwise Append keeps the contents, Overwrite and Error truncate to empty, and the file exists afterwards |
| Pipeline.OutputFile.WriteLine | src/main.rs:287 | the line and a newline are added after what is there |
| Pipeline.Lines | src/main.rs:279-288 | as many lines as results carrying a line |
| Pipeline.FailureList | src/main.rs:296-299 | as many listed failures as results with an error and no line |
| Pipeline.EmittedBytes | src/main.rs:280-284 | the written-bytes total the loop accumulates is the UTF-8 size of the text it writes |
| Pipeline.EmittedReadsBack | src/main.rs:279-288 | with newline-free lines the output splits back into the JSON lines in result order |
| Pipeline.ConversionPartition | src/main.rs:279-300 | when every result is a line or an error, success + error == number of results |
| Pipeline.WriteResults | src/main.rs:279-300 | the output gains every line plus a newline in result order; success, error, bytes read and bytes written grow by their totals; failures are listed in order |
| Pipeline.InvalidList | src/main.rs:210-215 | no more listed files than invalid results |
| Pipeline.ValidationPartition | src/main.rs:199-215 | every result counts as exactly one of valid and invalid |
| Pipeline.InvalidAllListed | src/main.rs:210-215 | for well-shaped results every invalid file is listed |
| Pipeline.ValidateResults | src/main.rs:195-216 | valid results raise success and bytes read by their size; invalid ones raise validation-failed and are listed in order; nothing else changes |
| Pipeline.ConversionOptions | src/main.rs:254-256 | the parsed `--fields` and `--pretty` on top of the defaults, not validation-only |
| Pipeline.ProcessAll | src/main.rs:261-268 | one result per file, in file order, each for its file and well shaped; never a bare validation result |
| Pipeline.ValidateAll | src/main.rs:192-196 | one result per file, in file order, never a line, valid iff the file parsed |
| Pipeline.ConversionCoversAll | src/main.rs:261-300 | in conversion mode successes and errors add up to the number of files, and every failure is listed |
| Pipeline.ValidationCoversAll | src/main.rs:195-216 | in validation mode valid and invalid add up to the number of files, and every invalid file is listed |
| Pipeline.RunValidationMode | src/main.rs:186-216 | the validation loop over all files, leaving the output alone |
| Pipeline.RunConversionMode | src/main.rs:246-300 | the mode check comes first: a refusal changes nothing; a failure to open the output stops the run before any write or count; otherwise the output is opened per the mode and receives every line, and the statistics are updated |
| Pipeline.Run | src/main.rs:44-74 | no files: stop without statistics and output; dry run: stop with zero counters; then validation, or conversion, which may stop with the output-exists or open error and zero counters, with their exact effects on the output and the counters |

## Left out

- Parsing and serialising JSON (serde_json) are inputs to the model, as described above.
  So is the choice between a memory map and a buffered reader; both reach the same
  `LoadOutcome`.
- The glob language of `--pattern` and the compile error for an invalid pattern
  (`PatternMatcher::new`). A pattern is the predicate it compiles to.
- Pipeline.Matches: states only what `PatternMatcher::matches` itself decides, because
  the glob crate's semantics are not part of this model.
- `WalkDir` traversal and `--max-depth`. The walk enters as a list of entries in walk
  order.
- `validate_input`, the thread-pool setup and `write_error_log`. These are file-system
  checks, thread configuration and log-file I/O.
- Terminal output: the header, progress bars, summaries, `print_errors` and
  `print_dry_run`.
- Clocks and elapsed time (`Instant`, `chrono_now`). `format_duration` takes the
  duration as an argument.
- Floating point: the success rates, throughput, and the two-decimal text that
  `format_bytes` prints from 1 KiB up.
- Stats.FormatBytes: states only the unit for results of 1 KiB and above, not the text,
  because that text comes from floating-point formatting.
- Stats.Statistics.AddBytesRead: does not model u64 wrap-around, because the counters
  are unbounded naturals.
- Stats.Statistics.AddBytesWritten: does not model u64 wrap-around, for the same reason.
- Stats.Statistics.IncrementSuccess: does not model usize wrap-around, for the same
  reason. This also holds for IncrementError and IncrementValidationFailed.
- Concurrency:
  - the parallel map and the parallel validation `for_each` are taken sequentially, in
    file order;
  - the `Mutex`es and atomics are plain state;
  - the order in which parallel validation pushes errors is not modelled.
- Write and flush errors on the output file. Once the file is open, writing always
  succeeds in the model.
- How serde_json prints and parses floats. A float is carried as its bit pattern,
  and only the `Serializer` parameter turns it into text.
- The other `JConvertError` variants: input not found, not a directory, write, thread
  pool, invalid pattern and no files found. The output-exists and open errors are
  `RunError`; they keep the path and reason without the message text.
- Non-UTF-8 file names (`to_str()` returning None). Names are Unicode strings here.
- `Args` parsing by clap, and the `verbose`, `log`, `threads` and `max_depth` flags,
  which only affect printing, logging and traversal.
