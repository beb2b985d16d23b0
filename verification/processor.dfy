/**
 * The per-file unit of work: field selection over a JSON tree (`extract_fields`,
 * `get_nested_field`), the processing options and their builders, and the
 * classification of one file's outcome into a `ProcessResult`.
 *
 * Opening, memory-mapping and parsing a file, and serialising a value, belong to the
 * operating system and to serde_json; they enter the model as a `LoadOutcome` value
 * and a `Serializer` function.
 */
module Processor {
  import opened Wrappers
  import opened Text
  import opened JsonValue

  // ---------------------------------------------------------------------------
  // Dotted paths
  // ---------------------------------------------------------------------------

  /** `usize::MAX` on a 64-bit target. */
  const USIZE_MAX: nat := 0xFFFF_FFFF_FFFF_FFFF

  /** What `parse::<usize>` reads as digits: the text after one optional leading '+'. */
  function UnsignedDigits(s: string): string
  {
    if s != [] && s[0] == '+' then s[1..] else s
  }

  /**
   * `str::parse::<usize>`: an optional leading '+', then at least one ASCII digit
   * (leading zeros allowed), with a value that fits in a `usize`; anything else,
   * an out-of-range numeral included, is an error.
   */
  function ParseUsize(s: string): (r: Option<nat>)
    ensures s == [] || s == "+" ==> r.None?
    ensures r.Some? <==> UnsignedDigits(s) != [] && AllDigits(UnsignedDigits(s)) && DecimalValue(UnsignedDigits(s)) <= USIZE_MAX
    ensures r.Some? ==> r.value == DecimalValue(UnsignedDigits(s)) && r.value <= USIZE_MAX
    ensures r.Some? ==> forall i :: 0 <= i < |s| ==> IsDigit(s[i]) || (i == 0 && s[i] == '+')
    ensures s != [] && AllDigits(s) && DecimalValue(s) <= USIZE_MAX ==> r == Some(DecimalValue(s))
  {
    var digits := UnsignedDigits(s);
    if digits != [] && AllDigits(digits) && DecimalValue(digits) <= USIZE_MAX
    then Some(DecimalValue(digits))
    else None
  }

  /** Every index a `usize` can hold is read back from its decimal form, with or without '+'. */
  lemma ParseUsizeRoundTrip(n: nat)
    requires n <= USIZE_MAX
    ensures ParseUsize(NatToString(n)) == Some(n)
    ensures ParseUsize("+" + NatToString(n)) == Some(n)
  {
    DecimalRoundTrip(n);
    assert ("+" + NatToString(n))[1..] == NatToString(n);
  }

  /**
   * The walk of `get_nested_field` over already split segments: an object is entered
   * by key, an array by a segment that parses as an in-range index; anything else
   * (a scalar part-way, a non-numeric segment at an array, a missing key, an index
   * past the end) is "not found".
   */
  function Lookup(v: Json, segments: seq<string>): Option<Json>
    decreases |segments|
  {
    if segments == [] then Some(v)
    else
      match v
      case Object(m) =>
        if segments[0] in m then Lookup(m[segments[0]], segments[1..]) else None
      case Array(a) =>
        (match ParseUsize(segments[0])
         case Some(index) => if index < |a| then Lookup(a[index], segments[1..]) else None
         case None => None)
      case _ => None
  }

  /** `get_nested_field(json, path)`: the walk along the '.'-separated segments of `path`. */
  function GetNested(json: Json, path: string): Option<Json>
  {
    Lookup(json, Split(path, '.'))
  }

  /** Walking a path in two legs is walking the first leg, then the second from where it ended. */
  lemma {:induction false} LookupAppend(v: Json, first: seq<string>, second: seq<string>)
    ensures Lookup(v, first + second) ==
            match Lookup(v, first)
            case Some(w) => Lookup(w, second)
            case None => None
    decreases |first|
  {
    if first == [] {
      assert first + second == second;
    } else {
      assert (first + second)[0] == first[0];
      assert (first + second)[1..] == first[1..] + second;
      match v
      case Object(m) =>
        if first[0] in m { LookupAppend(m[first[0]], first[1..], second); }
      case Array(a) => {
        match ParseUsize(first[0]) {
          case Some(index) =>
            if index < |a| { LookupAppend(a[index], first[1..], second); }
          case None =>
        }
      }
      case _ =>
    }
  }

  /** The document that holds `w` at the end of the key path `segments`, one object per key. */
  function Nest(segments: seq<string>, w: Json): Json
    decreases |segments|
  {
    if segments == [] then w else Object(map[segments[0] := Nest(segments[1..], w)])
  }

  /** Looking up a key path in the document built along it finds the value put there. */
  lemma {:induction false} LookupNest(segments: seq<string>, w: Json)
    ensures Lookup(Nest(segments, w), segments) == Some(w)
    decreases |segments|
  {
    if segments != [] {
      LookupNest(segments[1..], w);
    }
  }

  /**
   * The loop of `get_nested_field`: split the path, then step `current` down one
   * segment at a time, returning "not found" at the first mismatch.
   */
  method GetNestedField(json: Json, path: string) returns (r: Option<Json>)
    ensures r == GetNested(json, path)
  {
    var parts := Split(path, '.');
    var current := json;
    for k := 0 to |parts|
      invariant Lookup(current, parts[k..]) == Lookup(json, parts)
    {
      var part := parts[k];
      assert parts[k..][0] == part && parts[k..][1..] == parts[k + 1..];
      match current {
        case Object(m) =>
          if part !in m {
            return None;
          }
          current := m[part];
        case Array(a) =>
          match ParseUsize(part) {
            case Some(index) =>
              if index >= |a| {
                return None;
              }
              current := a[index];
            case None =>
              return None;
          }
        case _ =>
          return None;
      }
    }
    assert parts[|parts|..] == [];
    r := Some(current);
  }

  // ---------------------------------------------------------------------------
  // Field extraction
  // ---------------------------------------------------------------------------

  /** The output key of a selector: `field.replace('.', "_")`; a bare key is kept as it is. */
  function FlatKey(field: string): (k: string)
    ensures |k| == |field| && '.' !in k
    ensures '.' !in field ==> k == field
    ensures forall i :: 0 <= i < |field| && field[i] != '.' ==> k[i] == field[i]
  {
    Replace(field, '.', '_')
  }

  /**
   * The object that the selector loop of `extract_fields` builds from `fields`, taken
   * left to right: a dotted selector inserts its nested value under the flattened key,
   * a bare one copies its own key; selectors that resolve to nothing insert nothing,
   * and a later insert under the same key replaces an earlier one.
   */
  function Selected(json: Json, fields: seq<string>): (r: map<string, Json>)
    requires json.Object?
    ensures forall k :: k in r ==> exists i :: 0 <= i < |fields| && FlatKey(fields[i]) == k
    decreases |fields|
  {
    if fields == [] then map[]
    else
      var acc := Selected(json, fields[..|fields| - 1]);
      var field := fields[|fields| - 1];
      if '.' in field then
        match GetNested(json, field)
        case Some(value) => acc[FlatKey(field) := value]
        case None => acc
      else if field in json.fields then acc[field := json.fields[field]]
      else acc
  }

  /**
   * `extract_fields`: an object is reduced to the selected entries, an array is
   * mapped element by element, and any other value is returned unchanged.
   */
  function ExtractFields(json: Json, fields: seq<string>): (r: Json)
    ensures json.Object? ==> r.Object? && forall k :: k in r.fields ==> exists i :: 0 <= i < |fields| && FlatKey(fields[i]) == k
    ensures json.Array? ==> r.Array? && |r.elems| == |json.elems|
    ensures json.Array? ==> forall i :: 0 <= i < |json.elems| ==> r.elems[i] == ExtractFields(json.elems[i], fields)
    ensures !json.Object? && !json.Array? ==> r == json
  {
    match json
    case Object(_) => Object(Selected(json, fields))
    case Array(a) => Array(seq(|a|, i requires 0 <= i < |a| => ExtractFields(a[i], fields)))
    case _ => json
  }

  /**
   * The selector loop of `extract_fields` as the source runs it: a `new_map` that
   * each selector may extend.  Arrays and scalars take the pure path.
   */
  method Extract(json: Json, fields: seq<string>) returns (r: Json)
    ensures r == ExtractFields(json, fields)
  {
    if !json.Object? {
      return ExtractFields(json, fields);
    }
    var newMap: map<string, Json> := map[];
    for k := 0 to |fields|
      invariant newMap == Selected(json, fields[..k])
    {
      var field := fields[k];
      assert fields[..k + 1][..k] == fields[..k];
      if '.' in field {
        var value := GetNestedField(json, field);
        if value.Some? {
          var flatKey := Replace(field, '.', '_');
          newMap := newMap[flatKey := value.value];
        }
      } else if field in json.fields {
        newMap := newMap[field := json.fields[field]];
      }
    }
    assert fields[..|fields|] == fields;
    r := Object(newMap);
  }

  /** For a bare key, the nested walk is a plain key lookup, so both branches of the loop agree. */
  lemma BareSelectorLookup(json: Json, field: string)
    requires json.Object?
    ensures '.' !in field ==> GetNested(json, field) == if field in json.fields then Some(json.fields[field]) else None
  {
    if '.' !in field {
      SplitNoSeparator(field, '.');
      assert [field][1..] == [];
      if field in json.fields {
        assert Lookup(json, [field]) == Lookup(json.fields[field], []);
      }
    }
  }

  /** Selector `field` puts key `k` into the selection when it flattens to `k` and resolves. */
  predicate Contributes(json: Json, field: string, k: string)
  {
    FlatKey(field) == k && GetNested(json, field).Some?
  }

  /** One more selector adds its own key, if it contributes, to the keys already selected. */
  lemma SelectedStep(json: Json, fields: seq<string>, k: string)
    requires json.Object? && fields != []
    ensures k in Selected(json, fields) <==>
            k in Selected(json, fields[..|fields| - 1]) || Contributes(json, fields[|fields| - 1], k)
  {
    BareSelectorLookup(json, fields[|fields| - 1]);
  }

  /**
   * The keys of the selection: `k` is present exactly when some selector flattens to
   * `k` and resolves to a value.
   */
  lemma {:induction false} SelectedKeys(json: Json, fields: seq<string>, k: string)
    requires json.Object?
    ensures k in Selected(json, fields) <==> exists i :: 0 <= i < |fields| && Contributes(json, fields[i], k)
    decreases |fields|
  {
    if fields != [] {
      var init := fields[..|fields| - 1];
      SelectedStep(json, fields, k);
      SelectedKeys(json, init, k);
      if exists i :: 0 <= i < |init| && Contributes(json, init[i], k) {
        var i :| 0 <= i < |init| && Contributes(json, init[i], k);
        assert fields[i] == init[i];
      }
      if exists i :: 0 <= i < |fields| && Contributes(json, fields[i], k) {
        var i :| 0 <= i < |fields| && Contributes(json, fields[i], k);
        if i < |init| {
          assert init[i] == fields[i];
        }
      }
    }
  }

  /**
   * The value under a key is that of the last selector that flattens to the key and
   * resolves: a selector that resolves to nothing leaves the key as it was.
   */
  lemma {:induction false} SelectedValue(json: Json, fields: seq<string>, i: nat)
    requires json.Object? && i < |fields|
    requires GetNested(json, fields[i]).Some?
    requires forall j :: i < j < |fields| && FlatKey(fields[j]) == FlatKey(fields[i]) ==> GetNested(json, fields[j]).None?
    ensures FlatKey(fields[i]) in Selected(json, fields)
    ensures Selected(json, fields)[FlatKey(fields[i])] == GetNested(json, fields[i]).value
    decreases |fields|
  {
    var init := fields[..|fields| - 1];
    var last := fields[|fields| - 1];
    BareSelectorLookup(json, last);
    if i < |fields| - 1 {
      assert init[i] == fields[i];
      forall j | i < j < |init| && FlatKey(init[j]) == FlatKey(init[i])
        ensures GetNested(json, init[j]).None?
      {
        assert init[j] == fields[j];
      }
      SelectedValue(json, init, i);
    }
  }

  /**
   * A bare selector that no other selector collides with copies exactly its own key:
   * present in the result iff present in the source, with the same value.
   */
  lemma {:induction false} SelectedBareKey(json: Json, fields: seq<string>, field: string)
    requires json.Object? && '.' !in field && field in fields
    requires forall g :: g in fields && FlatKey(g) == field ==> g == field
    ensures field in Selected(json, fields) <==> field in json.fields
    ensures field in json.fields ==> Selected(json, fields)[field] == json.fields[field]
    decreases |fields|
  {
    var init := fields[..|fields| - 1];
    var last := fields[|fields| - 1];
    BareSelectorLookup(json, field);
    if last != field {
      assert FlatKey(last) != field;
      assert fields == init + [last];
      assert field in init;
      SelectedBareKey(json, init, field);
    } else if field in init {
      SelectedBareKey(json, init, field);
    }
  }

  /**
   * Flattening: a selector whose path leads to `w` puts `w` under its flattened key,
   * e.g. "user.profile.age" over {"user": {"profile": {"age": 30}}} gives {"user_profile_age": 30}.
   */
  lemma FlattenNested(field: string, w: Json)
    ensures var r := ExtractFields(Nest(Split(field, '.'), w), [field]);
            r.Object? && r.fields == map[FlatKey(field) := w]
  {
    var doc := Nest(Split(field, '.'), w);
    LookupNest(Split(field, '.'), w);
    assert doc.Object?;
    var sel := Selected(doc, [field]);
    assert [field][..0] == [];
    BareSelectorLookup(doc, field);
    assert sel == map[FlatKey(field) := w];
  }

  // ---------------------------------------------------------------------------
  // Options
  // ---------------------------------------------------------------------------

  /** `ProcessOptions`: immutable once built. */
  datatype ProcessOptions = ProcessOptions(
    fields: Option<seq<string>>,
    pretty: bool,
    validateOnly: bool,
    mmapThreshold: nat)

  /** `ProcessOptions::new`: 10 MiB threshold, everything else at its default. */
  function NewOptions(): (o: ProcessOptions)
    ensures o.mmapThreshold == 10 * 1024 * 1024
    ensures o.fields.None? && !o.pretty && !o.validateOnly
  {
    ProcessOptions(None, false, false, 10 * 1024 * 1024)
  }

  /** `with_fields`: sets the selectors and nothing else. */
  function WithFields(o: ProcessOptions, fields: Option<seq<string>>): (r: ProcessOptions)
    ensures r.fields == fields
    ensures r.pretty == o.pretty && r.validateOnly == o.validateOnly && r.mmapThreshold == o.mmapThreshold
  {
    o.(fields := fields)
  }

  /** `with_pretty`: sets the density of the output and nothing else. */
  function WithPretty(o: ProcessOptions, pretty: bool): (r: ProcessOptions)
    ensures r.pretty == pretty
    ensures r.fields == o.fields && r.validateOnly == o.validateOnly && r.mmapThreshold == o.mmapThreshold
  {
    o.(pretty := pretty)
  }

  /** `with_validate_only`: sets the validation switch and nothing else. */
  function WithValidateOnly(o: ProcessOptions, validateOnly: bool): (r: ProcessOptions)
    ensures r.validateOnly == validateOnly
    ensures r.fields == o.fields && r.pretty == o.pretty && r.mmapThreshold == o.mmapThreshold
  {
    o.(validateOnly := validateOnly)
  }

  // ---------------------------------------------------------------------------
  // Results
  // ---------------------------------------------------------------------------

  /** `ProcessResult`, field for field. */
  datatype ProcessResult = ProcessResult(
    path: string,
    jsonLine: Option<string>,
    error: Option<string>,
    fileSize: nat,
    isValid: bool)

  /** The three outcomes a result can stand for. */
  datatype Outcome = Serialized(line: string) | Valid | Failed(reason: string)

  /** The outcome a result's fields encode, or None for a combination no constructor builds. */
  function OutcomeOf(r: ProcessResult): Option<Outcome>
  {
    if r.jsonLine.Some? && r.error.None? && r.isValid then Some(Serialized(r.jsonLine.value))
    else if r.jsonLine.None? && r.error.None? && r.isValid then Some(Valid)
    else if r.jsonLine.None? && r.error.Some? && !r.isValid then Some(Failed(r.error.value))
    else None
  }

  /** `ProcessResult::success`. */
  function SuccessResult(path: string, jsonLine: string, fileSize: nat): (r: ProcessResult)
    ensures OutcomeOf(r) == Some(Serialized(jsonLine))
    ensures r.path == path && r.fileSize == fileSize
  {
    ProcessResult(path, Some(jsonLine), None, fileSize, true)
  }

  /** `ProcessResult::failure`. */
  function FailureResult(path: string, error: string, fileSize: nat): (r: ProcessResult)
    ensures OutcomeOf(r) == Some(Failed(error))
    ensures r.path == path && r.fileSize == fileSize
  {
    ProcessResult(path, None, Some(error), fileSize, false)
  }

  /** `ProcessResult::valid`. */
  function ValidResult(path: string, fileSize: nat): (r: ProcessResult)
    ensures OutcomeOf(r) == Some(Valid)
    ensures r.path == path && r.fileSize == fileSize
  {
    ProcessResult(path, None, None, fileSize, true)
  }

  /** A result some constructor could have built. */
  predicate WellShaped(r: ProcessResult)
  {
    OutcomeOf(r).Some?
  }

  /** A well-shaped result never holds both a line and an error, and is valid exactly when it holds no error. */
  lemma WellShapedExclusive(r: ProcessResult)
    requires WellShaped(r)
    ensures !(r.jsonLine.Some? && r.error.Some?)
    ensures r.isValid <==> r.error.None?
    ensures r.jsonLine.Some? ==> r.isValid
  {
  }

  // ---------------------------------------------------------------------------
  // Processing one file
  // ---------------------------------------------------------------------------

  /** The failures `process_file_internal` can raise (a part of `JConvertError`). */
  datatype FileError =
    | FileOpenError(file: string, reason: string)
    | ParseError(file: string, reason: string)
    | SerializeError(file: string, reason: string)

  /** The words that open the message of each kind of failure. */
  function KindText(e: FileError): string
  {
    match e
    case FileOpenError(_, _) => "파일을 열 수 없습니다"
    case ParseError(_, _) => "JSON 파싱 실패"
    case SerializeError(_, _) => "JSON 직렬화 실패"
  }

  /**
   * The `Display` text of a failure, as `e.to_string()` gives it: the kind's words,
   * the file in parentheses, a colon, and the reason.
   */
  function ErrorMessage(e: FileError): (m: string)
    ensures |m| == |KindText(e)| + |e.file| + |e.reason| + 5
    ensures m[..|KindText(e)| + 2] == KindText(e) + " ("
    ensures m[|KindText(e)| + 2..|KindText(e)| + 2 + |e.file|] == e.file
    ensures m[|m| - |e.reason| - 3..|m| - |e.reason|] == "): "
    ensures m[|m| - |e.reason|..] == e.reason
  {
    var m := KindText(e) + " (" + e.file + "): " + e.reason;
    assert m == (KindText(e) + " (") + e.file + "): " + e.reason;
    m
  }

  /** The message names the stage that failed: failures of different kinds never read alike. */
  lemma ErrorMessageKinds(e1: FileError, e2: FileError)
    requires ErrorMessage(e1) == ErrorMessage(e2)
    ensures e1.FileOpenError? <==> e2.FileOpenError?
    ensures e1.ParseError? <==> e2.ParseError?
  {
    var m1, m2 := ErrorMessage(e1), ErrorMessage(e2);
    assert m1[0] == m2[0] && m1[5] == m2[5];
  }

  /**
   * What opening and parsing a file yields, whichever of the buffered-reader and the
   * memory-map strategies was used (an mmap failure is an open failure).
   */
  datatype LoadOutcome = OpenFailed(reason: string) | ParseFailed(reason: string) | Parsed(value: Json)

  /** serde_json's `to_string` (`pretty` false) and `to_string_pretty` (`pretty` true). */
  type Serializer = (Json, bool) -> Result<string, string>

  /** The value that is serialised: the selected fields when selectors are set, else the whole document. */
  function OutputValue(json: Json, options: ProcessOptions): (r: Json)
    ensures options.fields.None? ==> r == json
    ensures options.fields.Some? && json.Object? ==>
              r.Object? && forall k :: k in r.fields ==> exists i :: 0 <= i < |options.fields.value| && FlatKey(options.fields.value[i]) == k
    ensures json.Array? ==> r.Array? && |r.elems| == |json.elems|
    ensures !json.Object? && !json.Array? ==> r == json
  {
    match options.fields
    case Some(fields) => ExtractFields(json, fields)
    case None => json
  }

  /** `process_file_internal`: the parsed line, an empty line when only validating, or the failure. */
  function ProcessFileInternal(path: string, options: ProcessOptions, load: LoadOutcome, serialize: Serializer)
    : (r: Result<string, FileError>)
    ensures r.Success? <==> load.Parsed? && (options.validateOnly || serialize(OutputValue(load.value, options), options.pretty).Success?)
    ensures load.Parsed? && options.validateOnly ==> r == Success("")
    ensures r.Failure? ==> r.error.file == path
    ensures load.OpenFailed? ==> r == Failure(FileOpenError(path, load.reason))
    ensures load.ParseFailed? ==> r == Failure(ParseError(path, load.reason))
    ensures load.Parsed? && !options.validateOnly ==>
              r == match serialize(OutputValue(load.value, options), options.pretty)
                   case Success(line) => Success(line)
                   case Failure(reason) => Failure(SerializeError(path, reason))
  {
    match load
    case OpenFailed(reason) => Failure(FileOpenError(path, reason))
    case ParseFailed(reason) => Failure(ParseError(path, reason))
    case Parsed(json) =>
      if options.validateOnly then Success("")
      else
        match serialize(OutputValue(json, options), options.pretty)
        case Success(line) => Success(line)
        case Failure(reason) => Failure(SerializeError(path, reason))
  }

  /**
   * `process_file`: the size comes from the file's metadata (0 when that fails); an
   * internal failure becomes `failure`, a success becomes `valid` when only validating
   * and `success` with the serialised line otherwise.
   */
  function ProcessFile(path: string, metadataLen: Option<nat>, options: ProcessOptions,
                       load: LoadOutcome, serialize: Serializer): (r: ProcessResult)
    ensures WellShaped(r)
    ensures r.path == path && r.fileSize == (if metadataLen.Some? then metadataLen.value else 0)
    ensures load.OpenFailed? ==> OutcomeOf(r) == Some(Failed(ErrorMessage(FileOpenError(path, load.reason))))
    ensures load.ParseFailed? ==> OutcomeOf(r) == Some(Failed(ErrorMessage(ParseError(path, load.reason))))
    ensures load.Parsed? && options.validateOnly ==> OutcomeOf(r) == Some(Valid)
    ensures load.Parsed? && !options.validateOnly ==>
              OutcomeOf(r) == Some(match serialize(OutputValue(load.value, options), options.pretty)
                                   case Success(line) => Serialized(line)
                                   case Failure(reason) => Failed(ErrorMessage(SerializeError(path, reason))))
  {
    var fileSize := metadataLen.GetOr(0);
    match ProcessFileInternal(path, options, load, serialize)
    case Success(jsonLine) =>
      if options.validateOnly then ValidResult(path, fileSize) else SuccessResult(path, jsonLine, fileSize)
    case Failure(e) => FailureResult(path, ErrorMessage(e), fileSize)
  }

  /** `validate_file`: processing with validation only, so a result never carries a line. */
  function ValidateFile(path: string, metadataLen: Option<nat>, load: LoadOutcome): (r: ProcessResult)
    ensures r.jsonLine.None?
    ensures r.isValid <==> load.Parsed?
    ensures r.error.Some? <==> !load.Parsed?
    ensures r.path == path && r.fileSize == metadataLen.GetOr(0)
    ensures load.OpenFailed? ==> r.error == Some(ErrorMessage(FileOpenError(path, load.reason)))
    ensures load.ParseFailed? ==> r.error == Some(ErrorMessage(ParseError(path, load.reason)))
  {
    ProcessFile(path, metadataLen, WithValidateOnly(NewOptions(), true), load, (_, _) => Failure(""))
  }
}
