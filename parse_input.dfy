/** The checks `parse-input.ts` applies to the JSON argument of a workflow
    step: the argument check, the object check, the required fields and the
    summary it prints. `JSON.parse` itself is a given: its outcome is an
    input, and writing the file is left to the caller. */
module ParseInput {
  import opened Results
  import opened JsText

  /** A parsed JSON value. An object lists its own properties in
      enumeration order; numbers are integers here. */
  datatype Json =
    | Null
    | Bool(b: bool)
    | Number(n: int)
    | Str(s: string)
    | Array(items: seq<Json>)
    | Object(entries: seq<(string, Json)>)

  const USAGE := "Usage: parse-input.ts <json-string> <output-path> <required-field> [...]"
  const NOT_AN_OBJECT := "Input must be a JSON object"
  const INVALID_JSON := "Invalid JSON: "
  const MISSING_FIELDS := "Missing required fields: "

  /** A successful run: the data written to the output path and the summary
      printed for the caller. */
  datatype Written = Written(data: Json, summary: string)

  /** Why a run stops with `process.exit(1)`. */
  datatype Failure =
    | Usage
    | InvalidJson(parseError: string)
    | NotAnObject
    | MissingRequired(fields: seq<string>)

  /** The line a failure prints on standard error. */
  function Message(f: Failure): string {
    match f
    case Usage => USAGE
    case InvalidJson(e) => INVALID_JSON + e
    case NotAnObject => NOT_AN_OBJECT
    case MissingRequired(fields) => MISSING_FIELDS + Join(fields, ", ")
  }

  /** `data[key]` for an own property, `None` when `key in data` is false. */
  function Lookup(entries: seq<(string, Json)>, key: string): Option<Json> {
    if entries == [] then None
    else if entries[0].0 == key then Some(entries[0].1)
    else Lookup(entries[1..], key)
  }

  /** `!(f in data) || data[f] === "" || data[f] === null`. */
  predicate IsMissing(entries: seq<(string, Json)>, field: string) {
    var v := Lookup(entries, field);
    v.None? || v.value == Str("") || v.value == Null
  }

  /** The filter callback, closed over the parsed object. */
  function MissingTest(entries: seq<(string, Json)>): string -> bool {
    field => IsMissing(entries, field)
  }

  /** `requiredFields.filter(...)`. */
  function MissingFields(entries: seq<(string, Json)>, required: seq<string>): seq<string> {
    Filter(required, MissingTest(entries))
  }

  /** `!jsonString || !outputPath` after `[jsonString, outputPath, ...] = args`. */
  predicate ArgumentsMissing(args: seq<string>) {
    |args| < 2 || args[0] == "" || args[1] == ""
  }

  /** The script from its arguments to what it writes, or the message it
      exits with; `parsed` is what `JSON.parse(args[0])` gives. */
  function ParseInput(args: seq<string>, parsed: Result<Json, string>): Result<Written, Failure> {
    if ArgumentsMissing(args) then Err(Usage)
    else if parsed.Err? then Err(InvalidJson(parsed.error))
    else if !parsed.value.Object? then Err(NotAnObject)
    else
      var missing := MissingFields(parsed.value.entries, args[2..]);
      if missing != [] then Err(MissingRequired(missing))
      else Ok(Written(parsed.value, Summary(parsed.value.entries)))
  }

  /** The exit code: 0 after writing, 1 after any message. */
  function ExitCode(r: Result<Written, Failure>): nat {
    if r.Ok? then 0 else 1
  }

  // ---------------------------------------------------------------------------
  // The summary
  // ---------------------------------------------------------------------------

  /** `String(v)`, as a template literal shows a value. */
  function JsString(v: Json): string
    decreases v
  {
    match v
    case Null => "null"
    case Bool(b) => if b then "true" else "false"
    case Number(n) => if n < 0 then "-" + NatToString(-n) else NatToString(n)
    case Str(s) => s
    case Array(items) => ArrayString(items)
    case Object(_) => "[object Object]"
  }

  /** `items.join(",")`, where a null item shows as nothing. */
  function ArrayString(items: seq<Json>): string
    decreases items
  {
    if items == [] then ""
    else
      var first := if items[0] == Null then "" else JsString(items[0]);
      if |items| == 1 then first else first + "," + ArrayString(items[1..])
  }

  /** `${v ?? "(not set)"}`. */
  function Display(v: Json): string {
    if v == Null then "(not set)" else JsString(v)
  }

  function EntryLine(entry: (string, Json)): string {
    "  " + entry.0 + ": " + Display(entry.1)
  }

  function EntryLines(entries: seq<(string, Json)>): (r: seq<string>)
    ensures |r| == |entries|
    ensures forall i | 0 <= i < |entries| :: r[i] == EntryLine(entries[i])
  {
    if entries == [] then [] else [EntryLine(entries[0])] + EntryLines(entries[1..])
  }

  function SummaryHeader(count: nat): string {
    "Parsed input (" + NatToString(count) + " fields):"
  }

  /** The text printed after a successful run. */
  function Summary(entries: seq<(string, Json)>): string {
    SummaryHeader(|entries|) + "\n" + Join(EntryLines(entries), "\n")
  }

  // ---------------------------------------------------------------------------
  // What the script promises
  // ---------------------------------------------------------------------------

  /** The usage message is printed exactly when the JSON argument or the
      output path is absent or empty, and the exit code is then 1. */
  lemma UsageWhenArgumentMissing(args: seq<string>, parsed: Result<Json, string>)
    ensures ParseInput(args, parsed) == Err(Usage) <==> ArgumentsMissing(args)
    ensures ArgumentsMissing(args) ==> ExitCode(ParseInput(args, parsed)) == 1
  {
  }

  /** Null, an array or a primitive is refused with the object message, and
      nothing else gives that message. */
  lemma OnlyObjectsAreAccepted(args: seq<string>, parsed: Result<Json, string>)
    ensures ParseInput(args, parsed) == Err(NotAnObject) <==>
      !ArgumentsMissing(args) && parsed.Ok? && !parsed.value.Object?
  {
  }

  /** A required field is reported exactly when it is absent, `""` or null;
      `false` and `0` count as present. */
  lemma MissingMeansAbsentEmptyOrNull(entries: seq<(string, Json)>, required: seq<string>, field: string)
    ensures field in MissingFields(entries, required) <==>
      field in required &&
      (Lookup(entries, field).None? || Lookup(entries, field) == Some(Str("")) || Lookup(entries, field) == Some(Null))
    ensures Lookup(entries, field) in {Some(Bool(false)), Some(Number(0))} ==> field !in MissingFields(entries, required)
  {
    FilterMembership(required, MissingTest(entries), field);
  }

  /** The missing list follows the order of the required-field arguments. */
  lemma MissingKeepsArgumentOrder(entries: seq<(string, Json)>, a: seq<string>, b: seq<string>)
    ensures MissingFields(entries, a + b) == MissingFields(entries, a) + MissingFields(entries, b)
  {
    FilterKeepsOrder(a, b, MissingTest(entries));
  }

  /** An object is written, unchanged, exactly when no required field is
      missing; otherwise the message lists the missing fields. */
  lemma SucceedsIffNothingMissing(args: seq<string>, entries: seq<(string, Json)>)
    requires !ArgumentsMissing(args)
    ensures var r := ParseInput(args, Ok(Object(entries)));
      && (r.Ok? <==> MissingFields(entries, args[2..]) == [])
      && (r.Ok? ==> r.value.data == Object(entries) && ExitCode(r) == 0)
      && (r.Err? ==> r.error == MissingRequired(MissingFields(entries, args[2..])))
  {
  }

  /** Null shows as `(not set)`; an empty string, `false` and `0` show as
      themselves, since `??` only replaces null. */
  lemma OnlyNullIsNotSet()
    ensures Display(Null) == "(not set)"
    ensures Display(Str("")) == ""
    ensures Display(Bool(false)) == "false"
    ensures Display(Number(0)) == "0"
  {
    assert NatToString(0) == [DigitChar(0)];
  }

  /** The summary's header states the number of keys, and after it comes one
      line per key, in order, when no key or value spans lines. */
  lemma SummaryHasOneLinePerKey(entries: seq<(string, Json)>)
    requires |entries| > 0
    requires forall i | 0 <= i < |entries| :: '\n' !in EntryLine(entries[i])
    ensures var lines := Split(Summary(entries), "\n");
      && lines == [SummaryHeader(|entries|)] + EntryLines(entries)
      && |lines| == |entries| + 1
      && forall i | 0 <= i < |entries| :: lines[i + 1] == EntryLine(entries[i])
    ensures StringToNumber(NatToString(|entries|)) == Some(|entries|)
  {
    var lines := EntryLines(entries);
    var parts := [SummaryHeader(|entries|)] + lines;
    JoinCons(SummaryHeader(|entries|), lines, "\n");
    assert Join(parts, "\n") == Summary(entries);
    HeaderIsOneLine(|entries|);
    forall k | 0 <= k < |parts|
      ensures !Includes(parts[k], "\n")
    {
      if k == 0 {
        assert parts[k] == SummaryHeader(|entries|);
      } else {
        assert parts[k] == EntryLine(entries[k - 1]);
        AbsentCharNotIncluded(parts[k], '\n');
      }
    }
    SplitJoin(parts, "\n");
    NumberOfNatToString(|entries|);
  }

  /** For the empty object the header reads back 0 and is followed by one
      empty line: `[].join("\n")` is the empty string. */
  lemma EmptySummary()
    ensures Split(Summary([]), "\n") == [SummaryHeader(0), ""]
    ensures StringToNumber(NatToString(0)) == Some(0)
  {
    HeaderIsOneLine(0);
    AbsentCharNotIncluded("", '\n');
    assert Summary([]) == SummaryHeader(0) + "\n" + "";
    SplitPair(SummaryHeader(0), "", "\n");
    NumberOfNatToString(0);
  }

  lemma HeaderIsOneLine(count: nat)
    ensures !Includes(SummaryHeader(count), "\n")
  {
    var digits := NatToString(count);
    AbsentCharNotIncluded("Parsed input (", '\n');
    AbsentCharNotIncluded(" fields):", '\n');
    DigitsExclude(digits, "\n");
    ConcatExcludes("Parsed input (", digits, "\n");
    ConcatExcludes("Parsed input (" + digits, " fields):", "\n");
  }
}
