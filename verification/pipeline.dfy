/**
 * The driver of a run: which files of the walked folder are collected, the early
 * returns of `main`, the output-mode check, how the output file is opened, and the two
 * loops that fold the per-file results into the output file, the error list and the
 * statistics.  Files are processed as a pure function of what the folder holds, in
 * order; the folder walk, the file system and the serializer come in as parameters.
 */
module Pipeline {
  import opened Wrappers
  import opened Text
  import opened Processor
  import opened Stats
  import opened Cli

  // ---------------------------------------------------------------------------
  // Collecting the input files
  // ---------------------------------------------------------------------------

  /** One entry produced by the directory walk: its path, its final component, whether it is a regular file. */
  datatype WalkEntry = WalkEntry(path: string, fileName: Option<string>, isFile: bool)

  /** What the walk yields: an entry, or an error (an unreadable directory, say) that is skipped. */
  datatype WalkItem = Entry(entry: WalkEntry) | WalkError

  /** The position of the last `c` in `s`. */
  function LastIndexOf(s: string, c: char): (r: Option<nat>)
    ensures r.None? <==> c !in s
    ensures r.Some? ==> r.value < |s| && s[r.value] == c && c !in s[r.value + 1..]
  {
    if s == [] then None
    else if s[|s| - 1] == c then Some(|s| - 1)
    else
      var r := LastIndexOf(s[..|s| - 1], c);
      assert s == s[..|s| - 1] + [s[|s| - 1]];
      if r.Some? then
        assert s[r.value + 1..] == s[..|s| - 1][r.value + 1..] + [s[|s| - 1]];
        r
      else r
  }

  /** A `c` followed only by characters other than `c` is the last one. */
  lemma LastIndexOfSuffix(a: string, c: char, b: string)
    requires c !in b
    ensures LastIndexOf(a + [c] + b, c) == Some(|a|)
  {
    var s := a + [c] + b;
    assert s[|a|] == c;
    assert s[|a| + 1..] == b;
  }

  /**
   * `Path::extension` of a file name: the text after the last '.', except that a name
   * with no '.', or whose only '.' is its first character, or "..", has none.  The
   * extension may be empty ("a." has the extension "").
   */
  function Extension(name: string): (r: Option<string>)
    ensures r.None? <==> name == ".." || name == [] || '.' !in name[1..]
    ensures r.Some? ==> '.' !in r.value && |r.value| + 2 <= |name|
                        && name == name[..|name| - |r.value| - 1] + "." + r.value
  {
    if name == ".." then None
    else
      match LastIndexOf(name, '.')
      case None => None
      case Some(i) =>
        if i == 0 then None
        else
          assert name[1..][i - 1] == '.';
          assert name == name[..i] + "." + name[i + 1..];
          Some(name[i + 1..])
  }

  /**
   * The name of a file the converter picks up: its extension is "json" in any ASCII
   * case.  Equivalently, the name is at least one character followed by ".json" in
   * any ASCII case.
   */
  predicate IsJsonName(name: string): (b: bool)
    ensures b <==> |name| >= 6 && name[|name| - 5] == '.' && EqIgnoreAsciiCase(name[|name| - 4..], "json")
  {
    var e := Extension(name);
    JsonSuffixShape(name, e);
    e.Some? && EqIgnoreAsciiCase(e.value, "json")
  }

  /** The two readings of a ".json" name agree. */
  lemma JsonSuffixShape(name: string, e: Option<string>)
    requires e == Extension(name)
    ensures e.Some? && EqIgnoreAsciiCase(e.value, "json")
            <==> |name| >= 6 && name[|name| - 5] == '.' && EqIgnoreAsciiCase(name[|name| - 4..], "json")
  {
    var lower := "json";
    assert lower[0] == 'j' && lower[1] == 's' && lower[2] == 'o' && lower[3] == 'n';
    if e.Some? && EqIgnoreAsciiCase(e.value, "json") {
      assert name == name[..|name| - 5] + "." + e.value;
      assert name[|name| - 4..] == e.value;
    }
    if |name| >= 6 && name[|name| - 5] == '.' && EqIgnoreAsciiCase(name[|name| - 4..], "json") {
      var tail := name[|name| - 4..];
      forall i | 0 <= i < 4
        ensures tail[i] != '.'
      {
        assert AsciiLower(tail[i]) == AsciiLower(lower[i]);
        assert i == 0 || i == 1 || i == 2 || i == 3;
      }
      assert name[1..][|name| - 6] == '.';
      assert name != "..";
      var v := e.value;
      var k := |name| - |v| - 1;
      assert name[k] == '.' by {
        assert name == name[..k] + "." + v;
      }
      assert name[k + 1..] == v by {
        assert name == name[..k] + "." + v;
      }
      assert v == tail;
    }
  }

  /**
   * The extension of `stem.ext` is `ext`, when the stem is not empty, `ext` has no '.',
   * and the name is not ".." (which has no extension).
   */
  lemma ExtensionOfStem(stem: string, ext: string)
    requires stem != [] && (stem != "." || ext != []) && '.' !in ext
    ensures Extension(stem + "." + ext) == Some(ext)
  {
    var name := stem + "." + ext;
    LastIndexOfSuffix(stem, '.', ext);
    assert name[..|stem|] == stem;
    assert |name| == 2 ==> stem == name[..1];
    assert name[|stem| + 1..] == ext;
  }

  /** "x.json" and "x.JSON" are collected: the extension test ignores ASCII case. */
  lemma JsonNameAccepted(stem: string)
    requires stem != []
    ensures IsJsonName(stem + ".json") && IsJsonName(stem + ".JSON")
  {
    assert stem + ".json" == stem + "." + "json";
    assert stem + ".JSON" == stem + "." + "JSON";
    ExtensionOfStem(stem, "json");
    ExtensionOfStem(stem, "JSON");
    assert EqIgnoreAsciiCase("JSON", "json") by {
      var upper, lower := "JSON", "json";
      assert upper[0] == 'J' && upper[1] == 'S' && upper[2] == 'O' && upper[3] == 'N';
      assert lower[0] == 'j' && lower[1] == 's' && lower[2] == 'o' && lower[3] == 'n';
      forall i | 0 <= i < 4
        ensures AsciiLower(upper[i]) == AsciiLower(lower[i])
      {
        assert i == 0 || i == 1 || i == 2 || i == 3;
      }
    }
  }

  /** "x.txt" and "x.jsonl" are not collected. */
  lemma JsonNameRejected(stem: string)
    requires stem != []
    ensures !IsJsonName(stem + ".txt") && !IsJsonName(stem + ".jsonl")
  {
    assert stem + ".txt" == stem + "." + "txt";
    assert stem + ".jsonl" == stem + "." + "jsonl";
    ExtensionOfStem(stem, "txt");
    ExtensionOfStem(stem, "jsonl");
  }

  /** The hidden file ".json" is not collected: its only '.' comes first, so it has no extension. */
  lemma HiddenJsonNotCollected()
    ensures !IsJsonName(".json")
  {
    assert ".json"[1..] == "json";
  }

  /**
   * A compiled `--pattern`: a glob over file names, or none.  The glob language is not
   * part of this model, so a pattern is the predicate it compiles to.
   */
  type Matcher = Option<string -> bool>

  /** `PatternMatcher::matches`: without a pattern every name matches. */
  function Matches(m: Matcher, name: string): (b: bool)
    ensures m.None? ==> b
    ensures m.Some? ==> (b <==> m.value(name))
  {
    match m
    case None => true
    case Some(glob) => glob(name)
  }

  /** The filters of `collect_json_files`: a regular file, a JSON name, and a name the pattern accepts. */
  predicate Wanted(e: WalkEntry, m: Matcher)
  {
    e.isFile && e.fileName.Some? && IsJsonName(e.fileName.value) && Matches(m, e.fileName.value)
  }

  /** `collect_json_files`: the paths of the wanted entries, in walk order; errors are dropped. */
  function CollectJsonFiles(items: seq<WalkItem>, m: Matcher): (r: seq<string>)
    ensures |r| <= |items|
  {
    if items == [] then []
    else
      var rest := CollectJsonFiles(items[1..], m);
      match items[0]
      case Entry(e) => if Wanted(e, m) then [e.path] + rest else rest
      case WalkError => rest
  }

  /** Some wanted entry has path `p`. */
  ghost predicate WantedPath(items: seq<WalkItem>, m: Matcher, p: string)
  {
    exists e :: Entry(e) in items && Wanted(e, m) && e.path == p
  }

  lemma WantedPathStep(items: seq<WalkItem>, m: Matcher, p: string)
    requires items != []
    ensures WantedPath(items, m, p) <==>
              (items[0].Entry? && Wanted(items[0].entry, m) && items[0].entry.path == p) || WantedPath(items[1..], m, p)
  {
    assert items == [items[0]] + items[1..];
    if WantedPath(items, m, p) && !(items[0].Entry? && Wanted(items[0].entry, m) && items[0].entry.path == p) {
      var e :| Entry(e) in items && Wanted(e, m) && e.path == p;
      assert Entry(e) in items[1..];
    }
    if items[0].Entry? && Wanted(items[0].entry, m) && items[0].entry.path == p {
      assert Entry(items[0].entry) in items;
    }
  }

  /** A path is collected exactly when some wanted entry of the walk has it. */
  lemma {:induction false} CollectJsonFilesMembers(items: seq<WalkItem>, m: Matcher, p: string)
    ensures p in CollectJsonFiles(items, m) <==> WantedPath(items, m, p)
  {
    if items != [] {
      CollectJsonFilesMembers(items[1..], m, p);
      WantedPathStep(items, m, p);
    }
  }

  /** Collection keeps walk order: the files of two stretches of the walk, one after the other. */
  lemma {:induction false} CollectJsonFilesAppend(a: seq<WalkItem>, b: seq<WalkItem>, m: Matcher)
    ensures CollectJsonFiles(a + b, m) == CollectJsonFiles(a, m) + CollectJsonFiles(b, m)
  {
    if a == [] {
      assert a + b == b;
    } else {
      assert (a + b)[0] == a[0];
      assert (a + b)[1..] == a[1..] + b;
      CollectJsonFilesAppend(a[1..], b, m);
    }
  }

  // ---------------------------------------------------------------------------
  // The output file
  // ---------------------------------------------------------------------------

  /** Why conversion mode stops with an error. */
  datatype RunError =
    | OutputExists(output: string)
    | OutputOpenFailed(output: string, reason: string)

  /** `check_output_mode`: only the Error mode refuses, and only when the output is already present. */
  function CheckOutputMode(mode: WriteMode, output: string, present: bool): (r: Result<(), RunError>)
    ensures r.Failure? <==> mode == Error && present
    ensures r.Failure? ==> r.error == OutputExists(output)
  {
    if mode == Error && present then Failure(OutputExists(output)) else Success(())
  }

  /**
   * The output file: whether it exists and the text it holds, and the error the
   * operating system gives when it is opened for writing, if any (a missing directory,
   * a denied permission).
   */
  class OutputFile {
    var present: bool
    var content: string
    const openFailure: Option<string>

    /** A file that does not exist holds nothing. */
    predicate Valid()
      reads this
    {
      present || content == []
    }

    constructor (present: bool, content: string, openFailure: Option<string>)
      requires present || content == []
      ensures Valid()
      ensures this.present == present && this.content == content && this.openFailure == openFailure
    {
      this.present := present;
      this.content := content;
      this.openFailure := openFailure;
    }

    /**
     * `open_output_file`: Append creates the file if needed and keeps what it holds;
     * the other modes create or truncate it.  When the system refuses, the file is
     * left as it was and the error is returned.
     */
    method Open(mode: WriteMode) returns (r: Result<(), string>)
      requires Valid()
      modifies this
      ensures Valid()
      ensures r.Failure? <==> openFailure.Some?
      ensures r.Failure? ==> r.error == openFailure.value && unchanged(this)
      ensures r.Success? ==> present && content == if mode == Append then old(content) else []
    {
      if openFailure.Some? {
        return Failure(openFailure.value);
      }
      if mode != Append {
        content := [];
      }
      present := true;
      r := Success(());
    }

    /** `writeln!`: the line and a newline, after what is there. */
    method WriteLine(line: string)
      requires Valid() && present
      modifies this
      ensures Valid() && present
      ensures content == old(content) + line + "\n"
    {
      content := content + line + "\n";
    }
  }

  // ---------------------------------------------------------------------------
  // What the conversion loop produces, as functions of the results
  // ---------------------------------------------------------------------------

  /** A file that could not be processed, as it is reported and logged. */
  datatype FailedFile = FailedFile(path: string, error: string)

  /** Results carrying a JSON line. */
  function SuccessCount(results: seq<ProcessResult>): nat
  {
    if results == [] then 0
    else SuccessCount(results[..|results| - 1]) + (if results[|results| - 1].jsonLine.Some? then 1 else 0)
  }

  /** Results without a JSON line but with an error. */
  function FailureCount(results: seq<ProcessResult>): nat
  {
    if results == [] then 0
    else
      var last := results[|results| - 1];
      FailureCount(results[..|results| - 1]) + (if last.jsonLine.None? && last.error.Some? then 1 else 0)
  }

  /** The JSON lines of the results, in result order. */
  function Lines(results: seq<ProcessResult>): (r: seq<string>)
    ensures |r| == SuccessCount(results)
  {
    if results == [] then []
    else
      var last := results[|results| - 1];
      Lines(results[..|results| - 1]) + (if last.jsonLine.Some? then [last.jsonLine.value] else [])
  }

  /** What the loop writes: every JSON line followed by a newline. */
  function EmittedText(results: seq<ProcessResult>): string
  {
    Terminated(Lines(results), '\n')
  }

  /** The written-bytes total: the UTF-8 length of each JSON line plus one for its newline. */
  function LinesBytes(results: seq<ProcessResult>): nat
  {
    if results == [] then 0
    else
      var last := results[|results| - 1];
      LinesBytes(results[..|results| - 1]) + (if last.jsonLine.Some? then Utf8Len(last.jsonLine.value) + 1 else 0)
  }

  /** The read-bytes total: the sizes of the files whose JSON line was written. */
  function SuccessfulSize(results: seq<ProcessResult>): nat
  {
    if results == [] then 0
    else
      var last := results[|results| - 1];
      SuccessfulSize(results[..|results| - 1]) + (if last.jsonLine.Some? then last.fileSize else 0)
  }

  /** The failed files, with their messages, in result order. */
  function FailureList(results: seq<ProcessResult>): (r: seq<FailedFile>)
    ensures |r| == FailureCount(results)
  {
    if results == [] then []
    else
      var last := results[|results| - 1];
      FailureList(results[..|results| - 1])
        + (if last.jsonLine.None? && last.error.Some? then [FailedFile(last.path, last.error.value)] else [])
  }

  /** One more result adds its line and a newline to the text, or nothing. */
  lemma EmittedStep(results: seq<ProcessResult>)
    requires results != []
    ensures var init, last := results[..|results| - 1], results[|results| - 1];
            EmittedText(results)
              == if last.jsonLine.Some? then EmittedText(init) + last.jsonLine.value + "\n" else EmittedText(init)
  {
    var init, last := results[..|results| - 1], results[|results| - 1];
    if last.jsonLine.Some? {
      var lines := Lines(init) + [last.jsonLine.value];
      assert Lines(results) == lines;
      assert lines[..|lines| - 1] == Lines(init);
    } else {
      assert Lines(results) == Lines(init);
    }
  }

  /** The byte total the loop accumulates is the UTF-8 size of the text it writes. */
  lemma {:induction false} EmittedBytes(results: seq<ProcessResult>)
    ensures Utf8Len(EmittedText(results)) == LinesBytes(results)
  {
    if results != [] {
      var init, last := results[..|results| - 1], results[|results| - 1];
      EmittedBytes(init);
      EmittedStep(results);
      if last.jsonLine.Some? {
        Utf8LenAppend(EmittedText(init), last.jsonLine.value);
        Utf8LenAppend(EmittedText(init) + last.jsonLine.value, "\n");
        assert Utf8Len("\n") == 1;
      }
    }
  }

  /**
   * The output is JSON Lines: when no line holds a newline (compact output), splitting
   * what was written at newlines gives back the JSON lines in result order, and
   * nothing after the final newline.
   */
  lemma EmittedReadsBack(results: seq<ProcessResult>)
    requires forall i :: 0 <= i < |Lines(results)| ==> '\n' !in Lines(results)[i]
    ensures Split(EmittedText(results), '\n') == Lines(results) + [""]
  {
    SplitTerminated(Lines(results), '\n');
  }

  /**
   * When every result has one of the shapes of a conversion (a line or an error), each
   * is counted exactly once: successes and errors add up to the number of results.
   */
  lemma {:induction false} ConversionPartition(results: seq<ProcessResult>)
    requires forall i :: 0 <= i < |results| ==> WellShaped(results[i]) && OutcomeOf(results[i]) != Some(Valid)
    ensures SuccessCount(results) + FailureCount(results) == |results|
  {
    if results != [] {
      var init := results[..|results| - 1];
      assert forall i :: 0 <= i < |init| ==> init[i] == results[i];
      ConversionPartition(init);
    }
  }

  /** Writing a line after a prefix and some text is writing the text and the line after the prefix. */
  lemma AppendLine(prefix: string, text: string, line: string)
    ensures prefix + (text + line + "\n") == prefix + text + line + "\n"
  {
  }

  /** How each total of the conversion loop changes with one more result. */
  lemma ConversionStep(results: seq<ProcessResult>, k: nat)
    requires k < |results|
    ensures var r, before, after := results[k], results[..k], results[..k + 1];
            && SuccessCount(after) == SuccessCount(before) + (if r.jsonLine.Some? then 1 else 0)
            && FailureCount(after) == FailureCount(before) + (if r.jsonLine.None? && r.error.Some? then 1 else 0)
            && SuccessfulSize(after) == SuccessfulSize(before) + (if r.jsonLine.Some? then r.fileSize else 0)
            && LinesBytes(after) == LinesBytes(before) + (if r.jsonLine.Some? then Utf8Len(r.jsonLine.value) + 1 else 0)
            && FailureList(after)
               == FailureList(before) + (if r.jsonLine.None? && r.error.Some? then [FailedFile(r.path, r.error.value)] else [])
            && EmittedText(after)
               == if r.jsonLine.Some? then EmittedText(before) + r.jsonLine.value + "\n" else EmittedText(before)
  {
    assert results[..k + 1][..k] == results[..k];
    EmittedStep(results[..k + 1]);
  }

  /**
   * The result loop of `run_conversion_mode`: each result with a JSON line is written
   * and counted with its sizes; each other result with an error is counted and listed.
   */
  method WriteResults(results: seq<ProcessResult>, out: OutputFile, stats: Statistics)
    returns (errors: seq<FailedFile>)
    requires out.Valid() && out.present
    modifies out, stats
    ensures out.Valid() && out.present
    ensures out.content == old(out.content) + EmittedText(results)
    ensures stats.Snapshot() == old(stats.Snapshot()).(
              success := old(stats.successCount) + SuccessCount(results),
              error := old(stats.errorCount) + FailureCount(results),
              bytesRead := old(stats.totalBytesRead) + SuccessfulSize(results),
              bytesWritten := old(stats.totalBytesWritten) + LinesBytes(results))
    ensures errors == FailureList(results)
  {
    errors := [];
    for k := 0 to |results|
      invariant out.Valid() && out.present
      invariant out.content == old(out.content) + EmittedText(results[..k])
      invariant stats.successCount == old(stats.successCount) + SuccessCount(results[..k])
      invariant stats.errorCount == old(stats.errorCount) + FailureCount(results[..k])
      invariant stats.validationFailed == old(stats.validationFailed)
      invariant stats.totalBytesRead == old(stats.totalBytesRead) + SuccessfulSize(results[..k])
      invariant stats.totalBytesWritten == old(stats.totalBytesWritten) + LinesBytes(results[..k])
      invariant errors == FailureList(results[..k])
    {
      var result := results[k];
      ConversionStep(results, k);
      if result.jsonLine.Some? {
        var line := result.jsonLine.value;
        var lineBytes := Utf8Len(line) + 1;
        stats.AddBytesRead(result.fileSize);
        stats.AddBytesWritten(lineBytes);
        stats.IncrementSuccess();
        out.WriteLine(line);
        AppendLine(old(out.content), EmittedText(results[..k]), line);
      } else if result.error.Some? {
        stats.IncrementError();
        errors := errors + [FailedFile(result.path, result.error.value)];
      }
    }
    assert results[..|results|] == results;
  }

  // ---------------------------------------------------------------------------
  // What the validation loop produces
  // ---------------------------------------------------------------------------

  /** Results that are valid. */
  function ValidCount(results: seq<ProcessResult>): nat
  {
    if results == [] then 0
    else ValidCount(results[..|results| - 1]) + (if results[|results| - 1].isValid then 1 else 0)
  }

  /** Results that are not valid. */
  function InvalidCount(results: seq<ProcessResult>): nat
  {
    if results == [] then 0
    else InvalidCount(results[..|results| - 1]) + (if results[|results| - 1].isValid then 0 else 1)
  }

  /** The sizes of the valid files. */
  function ValidSize(results: seq<ProcessResult>): nat
  {
    if results == [] then 0
    else
      var last := results[|results| - 1];
      ValidSize(results[..|results| - 1]) + (if last.isValid then last.fileSize else 0)
  }

  /** The invalid files that carry a message, with it, in result order. */
  function InvalidList(results: seq<ProcessResult>): (r: seq<FailedFile>)
    ensures |r| <= InvalidCount(results)
  {
    if results == [] then []
    else
      var last := results[|results| - 1];
      InvalidList(results[..|results| - 1])
        + (if !last.isValid && last.error.Some? then [FailedFile(last.path, last.error.value)] else [])
  }

  /** Every result is either valid or invalid: the two counters add up to the number of results. */
  lemma {:induction false} ValidationPartition(results: seq<ProcessResult>)
    ensures ValidCount(results) + InvalidCount(results) == |results|
  {
    if results != [] {
      ValidationPartition(results[..|results| - 1]);
    }
  }

  /** Well-shaped invalid results all carry a message, so every invalid file is listed. */
  lemma {:induction false} InvalidAllListed(results: seq<ProcessResult>)
    requires forall i :: 0 <= i < |results| ==> WellShaped(results[i])
    ensures |InvalidList(results)| == InvalidCount(results)
  {
    if results != [] {
      var init := results[..|results| - 1];
      assert forall i :: 0 <= i < |init| ==> init[i] == results[i];
      InvalidAllListed(init);
    }
  }

  /**
   * The per-result body of `run_validation_mode`, applied to the results in order: a
   * valid file counts as a success and adds its size to the bytes read; an invalid one
   * counts as a validation failure and is listed with its message.
   */
  method ValidateResults(results: seq<ProcessResult>, stats: Statistics) returns (errors: seq<FailedFile>)
    modifies stats
    ensures stats.Snapshot() == old(stats.Snapshot()).(
              success := old(stats.successCount) + ValidCount(results),
              validationFailed := old(stats.validationFailed) + InvalidCount(results),
              bytesRead := old(stats.totalBytesRead) + ValidSize(results))
    ensures errors == InvalidList(results)
  {
    errors := [];
    for k := 0 to |results|
      invariant stats.successCount == old(stats.successCount) + ValidCount(results[..k])
      invariant stats.errorCount == old(stats.errorCount)
      invariant stats.validationFailed == old(stats.validationFailed) + InvalidCount(results[..k])
      invariant stats.totalBytesRead == old(stats.totalBytesRead) + ValidSize(results[..k])
      invariant stats.totalBytesWritten == old(stats.totalBytesWritten)
      invariant errors == InvalidList(results[..k])
    {
      var result := results[k];
      assert results[..k + 1][..k] == results[..k];
      if result.isValid {
        stats.IncrementSuccess();
        stats.AddBytesRead(result.fileSize);
      } else {
        stats.IncrementValidationFailed();
        if result.error.Some? {
          errors := errors + [FailedFile(result.path, result.error.value)];
        }
      }
    }
    assert results[..|results|] == results;
  }

  // ---------------------------------------------------------------------------
  // A whole run
  // ---------------------------------------------------------------------------

  /** What the file system shows of one input file: its metadata length, if any, and how loading it ends. */
  datatype FileView = FileView(metadataLen: Option<nat>, load: LoadOutcome)

  /** The command-line arguments the driver acts on. */
  datatype Args = Args(
    output: string,
    mode: WriteMode,
    dryRun: bool,
    validateOnly: bool,
    fields: Option<string>,
    pretty: bool)

  /** How a run ends when it does not stop with an error. */
  datatype RunOutcome =
    | NoFiles
    | DryRun(files: seq<string>)
    | Validated(invalid: seq<FailedFile>)
    | Converted(failed: seq<FailedFile>)

  /** The options of conversion mode: the selected fields and the pretty flag on top of the defaults. */
  function ConversionOptions(args: Args): (o: ProcessOptions)
    ensures o.fields == GetFields(args.fields) && o.pretty == args.pretty
    ensures !o.validateOnly && o.mmapThreshold == NewOptions().mmapThreshold
  {
    WithPretty(WithFields(NewOptions(), GetFields(args.fields)), args.pretty)
  }

  /** Conversion mode's results: `process_file` on every file, collected in file order. */
  function ProcessAll(files: seq<string>, options: ProcessOptions, fs: string -> FileView, serialize: Serializer)
    : (r: seq<ProcessResult>)
    ensures |r| == |files|
    ensures forall i :: 0 <= i < |r| ==> r[i].path == files[i] && WellShaped(r[i])
    ensures !options.validateOnly ==> forall i :: 0 <= i < |r| ==> OutcomeOf(r[i]) != Some(Valid)
  {
    seq(|files|, i requires 0 <= i < |files| =>
      ProcessFile(files[i], fs(files[i]).metadataLen, options, fs(files[i]).load, serialize))
  }

  /** Validation mode's results: every file checked, in file order. */
  function ValidateAll(files: seq<string>, fs: string -> FileView): (r: seq<ProcessResult>)
    ensures |r| == |files|
    ensures forall i :: 0 <= i < |r| ==>
              r[i].path == files[i] && r[i].jsonLine.None? && (r[i].isValid <==> fs(files[i]).load.Parsed?)
  {
    seq(|files|, i requires 0 <= i < |files| => ValidateFile(files[i], fs(files[i]).metadataLen, fs(files[i]).load))
  }

  /** In conversion mode every file is either written or reported: the counters cover all files. */
  lemma ConversionCoversAll(files: seq<string>, options: ProcessOptions, fs: string -> FileView, serialize: Serializer)
    requires !options.validateOnly
    ensures var results := ProcessAll(files, options, fs, serialize);
            SuccessCount(results) + FailureCount(results) == |files| && |FailureList(results)| == FailureCount(results)
  {
    ConversionPartition(ProcessAll(files, options, fs, serialize));
  }

  /** In validation mode every file is counted once and every invalid file is listed. */
  lemma ValidationCoversAll(files: seq<string>, fs: string -> FileView)
    ensures var results := ValidateAll(files, fs);
            ValidCount(results) + InvalidCount(results) == |files| && |InvalidList(results)| == InvalidCount(results)
  {
    var results := ValidateAll(files, fs);
    ValidationPartition(results);
    forall i | 0 <= i < |results|
      ensures WellShaped(results[i])
    {
      assert results[i] == ValidateFile(files[i], fs(files[i]).metadataLen, fs(files[i]).load);
    }
    InvalidAllListed(results);
  }

  /**
   * `run_validation_mode`: every file checked, in file order, and the results folded
   * into the statistics; the output file is not involved.
   */
  method RunValidationMode(files: seq<string>, fs: string -> FileView, stats: Statistics)
    returns (invalid: seq<FailedFile>)
    modifies stats
    ensures var results := ValidateAll(files, fs);
            invalid == InvalidList(results)
            && stats.Snapshot() == old(stats.Snapshot()).(
                 success := old(stats.successCount) + ValidCount(results),
                 validationFailed := old(stats.validationFailed) + InvalidCount(results),
                 bytesRead := old(stats.totalBytesRead) + ValidSize(results))
  {
    var results := ValidateAll(files, fs);
    invalid := ValidateResults(results, stats);
  }

  /**
   * `run_conversion_mode`: the output-mode check comes first, so a refused run processes
   * nothing and leaves the output alone; otherwise every file is processed and the
   * output opened per the mode.  When that open fails the run stops before writing
   * or counting anything; otherwise the results are written in file order.
   */
  method RunConversionMode(args: Args, files: seq<string>, fs: string -> FileView, serialize: Serializer,
                           out: OutputFile, stats: Statistics)
    returns (r: Result<seq<FailedFile>, RunError>)
    requires out.Valid()
    modifies out, stats
    ensures out.Valid()
    ensures r.Failure? <==> (args.mode == Error && old(out.present)) || out.openFailure.Some?
    ensures r.Failure? ==> unchanged(out) && unchanged(stats)
    ensures args.mode == Error && old(out.present) ==> r == Failure(OutputExists(args.output))
    ensures !(args.mode == Error && old(out.present)) && out.openFailure.Some? ==>
              r == Failure(OutputOpenFailed(args.output, out.openFailure.value))
    ensures r.Success? ==>
              var results := ProcessAll(files, ConversionOptions(args), fs, serialize);
              r.value == FailureList(results) && out.present
              && out.content == (if args.mode == Append then old(out.content) else []) + EmittedText(results)
              && stats.Snapshot() == old(stats.Snapshot()).(
                   success := old(stats.successCount) + SuccessCount(results),
                   error := old(stats.errorCount) + FailureCount(results),
                   bytesRead := old(stats.totalBytesRead) + SuccessfulSize(results),
                   bytesWritten := old(stats.totalBytesWritten) + LinesBytes(results))
  {
    var check := CheckOutputMode(args.mode, args.output, out.present);
    if check.Failure? {
      return Failure(check.error);
    }
    var results := ProcessAll(files, ConversionOptions(args), fs, serialize);
    var openResult := out.Open(args.mode);
    if openResult.Failure? {
      return Failure(OutputOpenFailed(args.output, openResult.error));
    }
    var failed := WriteResults(results, out, stats);
    return Success(failed);
  }

  /**
   * `main` after argument parsing and the input checks: collect the files; with none,
   * stop before any statistics exist; on a dry run, stop after creating them; then run
   * the validation or the conversion mode.
   */
  method Run(args: Args, walk: seq<WalkItem>, matcher: Matcher, fs: string -> FileView,
             serialize: Serializer, out: OutputFile)
    returns (r: Result<RunOutcome, RunError>, stats: Statistics?)
    requires out.Valid()
    modifies out
    ensures out.Valid()
    ensures CollectJsonFiles(walk, matcher) == [] ==>
              r == Success(NoFiles) && stats == null && unchanged(out)
    ensures CollectJsonFiles(walk, matcher) != [] ==>
              stats != null && fresh(stats) && stats.totalFiles == |CollectJsonFiles(walk, matcher)|
    ensures CollectJsonFiles(walk, matcher) != [] && args.dryRun ==>
              r == Success(DryRun(CollectJsonFiles(walk, matcher)))
              && stats.Snapshot() == Counters(0, 0, 0, 0, 0) && unchanged(out)
    ensures CollectJsonFiles(walk, matcher) != [] && !args.dryRun && args.validateOnly ==>
              var results := ValidateAll(CollectJsonFiles(walk, matcher), fs);
              r == Success(Validated(InvalidList(results))) && unchanged(out)
              && stats.Snapshot() == Counters(ValidCount(results), 0, InvalidCount(results), ValidSize(results), 0)
    ensures CollectJsonFiles(walk, matcher) != [] && !args.dryRun && !args.validateOnly
            && args.mode == Error && old(out.present) ==>
              r == Failure(OutputExists(args.output)) && unchanged(out)
              && stats.Snapshot() == Counters(0, 0, 0, 0, 0)
    ensures CollectJsonFiles(walk, matcher) != [] && !args.dryRun && !args.validateOnly
            && !(args.mode == Error && old(out.present)) && out.openFailure.Some? ==>
              r == Failure(OutputOpenFailed(args.output, out.openFailure.value)) && unchanged(out)
              && stats.Snapshot() == Counters(0, 0, 0, 0, 0)
    ensures CollectJsonFiles(walk, matcher) != [] && !args.dryRun && !args.validateOnly
            && !(args.mode == Error && old(out.present)) && out.openFailure.None? ==>
              var results := ProcessAll(CollectJsonFiles(walk, matcher), ConversionOptions(args), fs, serialize);
              r == Success(Converted(FailureList(results))) && out.present
              && out.content == (if args.mode == Append then old(out.content) else []) + EmittedText(results)
              && stats.Snapshot() == Counters(SuccessCount(results), FailureCount(results), 0,
                                              SuccessfulSize(results), LinesBytes(results))
  {
    var files := CollectJsonFiles(walk, matcher);
    if files == [] {
      return Success(NoFiles), null;
    }
    stats := new Statistics(|files|);
    if args.dryRun {
      return Success(DryRun(files)), stats;
    }
    if args.validateOnly {
      var invalid := RunValidationMode(files, fs, stats);
      return Success(Validated(invalid)), stats;
    }
    var converted := RunConversionMode(args, files, fs, serialize, out, stats);
    match converted
    case Failure(e) => r := Failure(e);
    case Success(failed) => r := Success(Converted(failed));
  }
}
