/** The form-field record both extraction engines produce. */
module Forms {
  import opened Results

  /** The field types the extractors report. */
  datatype FieldKind = Text | Checkbox | Radio | Dropdown | Unknown {
    /** The string written into the JSON output. */
    function Name(): string {
      match this
      case Text => "text"
      case Checkbox => "checkbox"
      case Radio => "radio"
      case Dropdown => "dropdown"
      case Unknown => "unknown"
    }
  }

  /** A widget rectangle, copied through unchanged. */
  datatype Rect = Rect(x: real, y: real, width: real, height: real)

  /** `FormField`: the optional attributes are `None` when the key is absent. */
  datatype FormField = FormField(
    name: string,
    kind: FieldKind,
    options: Option<seq<string>>,
    tooltip: Option<string>,
    maxLength: Option<int>,
    rect: Option<Rect>)
}

/** Field extraction from the text pdftk prints for `dump_data_fields`: blocks
    separated by `---`, each a list of `Key: value` lines. Running pdftk is
    outside the model; its standard output is the input here. */
module Pdftk {
  import opened Results
  import opened JsText
  import opened Forms

  /** `parsePdftkFieldType`: pdftk's type names, compared case-insensitively. */
  function ParsePdftkFieldType(fieldType: string): (r: FieldKind)
    ensures r == Text <==> ToLower(fieldType) == "text"
    ensures r == Checkbox <==> ToLower(fieldType) == "button"
    ensures r == Dropdown <==> ToLower(fieldType) == "choice"
    ensures r != Radio
  {
    match ToLower(fieldType)
    case "text" => Text
    case "button" => Checkbox
    case "choice" => Dropdown
    case _ => Unknown
  }

  /** The mapping ignores case: a name and its lower-cased form map alike. */
  lemma FieldTypeIgnoresCase(fieldType: string)
    ensures ParsePdftkFieldType(fieldType) == ParsePdftkFieldType(ToLower(fieldType))
  {
    ToLowerIdempotent(fieldType);
  }

  /** Every name other than text, button and choice (in any case) is unknown. */
  lemma OtherTypesAreUnknown(fieldType: string)
    requires ToLower(fieldType) != "text" && ToLower(fieldType) != "button" && ToLower(fieldType) != "choice"
    ensures ParsePdftkFieldType(fieldType) == Unknown
  {
  }

  const FIELD_NAME_KEY: string := "FieldName:"
  const FIELD_TYPE_KEY: string := "FieldType:"
  const STATE_OPTION_KEY: string := "FieldStateOption:"
  const BLOCK_SEPARATOR: string := "---"

  /** `(.+)$` after `\s*` can start at `k` of the text after the key: white
      space before `k`, at least one character from `k` on, and no line
      terminator from `k` to the end (a `.` does not match one). */
  predicate CaptureAt(rest: string, k: int) {
    0 <= k < |rest| && AllSpace(rest[..k]) && forall i | k <= i < |rest| :: !IsLineTerminator(rest[i])
  }

  /** Some start for the capture exists. */
  predicate HasCapture(rest: string) {
    exists k | 0 <= k < |rest| :: CaptureAt(rest, k)
  }

  /** `line.match(/^<key>\s*(.+)$/)` followed by `.trim()` of the capture. */
  function LineValue(line: string, key: string): Option<string> {
    if key <= line && HasCapture(line[|key|..]) then Some(Trim(line[|key|..])) else None
  }

  /** A line yields a value exactly when the regular expression matches, and
      whichever start the capture has, trimming it gives that value: the
      result does not depend on how `\s*` backtracks. */
  lemma LineValueIsTrimmedCapture(line: string, key: string)
    ensures LineValue(line, key).Some? <==>
      key <= line && exists k | 0 <= k < |line| - |key| :: CaptureAt(line[|key|..], k)
    ensures LineValue(line, key).Some? ==>
      forall k | CaptureAt(line[|key|..], k) :: LineValue(line, key).value == Trim(line[|key|..][k..])
  {
    if key <= line {
      var rest := line[|key|..];
      assert |rest| == |line| - |key|;
      forall k | CaptureAt(rest, k)
        ensures Trim(rest) == Trim(rest[k..])
      {
        CaptureTrim(rest, k);
      }
    }
  }

  /** The white space before the capture does not survive trimming. */
  lemma CaptureTrim(rest: string, k: int)
    requires CaptureAt(rest, k)
    ensures Trim(rest) == Trim(rest[k..])
  {
    assert rest == rest[..k] + rest[k..];
    TrimSkipsLeadingSpace(rest[..k], rest[k..]);
  }

  /** The per-line results of matching `key`, one per line. */
  function Matches(lines: seq<string>, key: string): (r: seq<Option<string>>)
    ensures |r| == |lines|
    ensures forall i | 0 <= i < |lines| :: r[i] == LineValue(lines[i], key)
  {
    seq(|lines|, i requires 0 <= i < |lines| => LineValue(lines[i], key))
  }

  /** The last present value: later lines overwrite earlier ones. */
  function LastSome<T>(ms: seq<Option<T>>): Option<T> {
    if ms == [] then None
    else if ms[|ms| - 1].Some? then ms[|ms| - 1]
    else LastSome(ms[..|ms| - 1])
  }

  /** The present values, in order. */
  function Somes<T>(ms: seq<Option<T>>): seq<T> {
    if ms == [] then []
    else Somes(ms[..|ms| - 1]) + (if ms[|ms| - 1].Some? then [ms[|ms| - 1].value] else [])
  }

  /** The value of the last line that matches `key`. */
  function LastValue(lines: seq<string>, key: string): Option<string> {
    LastSome(Matches(lines, key))
  }

  /** The values of all lines that match `key`, in order. */
  function AllValues(lines: seq<string>, key: string): seq<string> {
    Somes(Matches(lines, key))
  }

  /** `opts.filter(opt => opt !== "Off")`. */
  function WithoutOff(opts: seq<string>): (r: seq<string>)
    ensures "Off" !in r
    ensures forall o :: o in r <==> o in opts && o != "Off"
    ensures |r| <= |opts|
  {
    if opts == [] then []
    else (if opts[0] == "Off" then [] else [opts[0]]) + WithoutOff(opts[1..])
  }

  /** Dropping "Off" keeps the listing order: it distributes over
      concatenation, so the kept options appear as they did in the dump. */
  lemma {:induction false} WithoutOffKeepsOrder(a: seq<string>, b: seq<string>)
    ensures WithoutOff(a + b) == WithoutOff(a) + WithoutOff(b)
  {
    if a == [] {
      assert a + b == b;
    } else {
      var head: seq<string> := if a[0] == "Off" then [] else [a[0]];
      var ab := a + b;
      assert ab[0] == a[0] && ab[1..] == a[1..] + b;
      WithoutOffKeepsOrder(a[1..], b);
      calc {
        WithoutOff(ab);
        head + WithoutOff(a[1..] + b);
        head + (WithoutOff(a[1..]) + WithoutOff(b));
        (head + WithoutOff(a[1..])) + WithoutOff(b);
      }
    }
  }

  /** A list without "Off" is kept as it is. */
  lemma {:induction false} WithoutOffKeepsClean(opts: seq<string>)
    requires "Off" !in opts
    ensures WithoutOff(opts) == opts
  {
    if opts != [] {
      WithoutOffKeepsClean(opts[1..]);
      assert opts == [opts[0]] + opts[1..];
    }
  }

  /** `block.trim().split("\n")`. */
  function BlockLines(block: string): seq<string> {
    Split(Trim(block), "\n")
  }

  /** The field a block describes, when it names one: the last `FieldName`
      and `FieldType` lines, and the state options other than "Off" when
      there is at least one. */
  function BlockField(block: string): Option<FormField> {
    var lines := BlockLines(block);
    FieldFrom(LastValue(lines, FIELD_NAME_KEY).GetOr(""), LastValue(lines, FIELD_TYPE_KEY).GetOr(""),
              AllValues(lines, STATE_OPTION_KEY))
  }

  /** The field pushed after the line loop, only when a name was found. */
  function FieldFrom(name: string, fieldType: string, stateOptions: seq<string>): Option<FormField> {
    if name == "" then None
    else
      var options := if |stateOptions| > 0 && exists o | o in stateOptions :: o != "Off"
        then Some(WithoutOff(stateOptions)) else None;
      Some(FormField(name, ParsePdftkFieldType(fieldType), options, None, None, None))
  }

  /** `stdout.split("---").filter(block => block.trim())`. */
  function NonBlank(blocks: seq<string>): (r: seq<string>)
    ensures |r| <= |blocks|
  {
    if blocks == [] then []
    else (if Trim(blocks[0]) != "" then [blocks[0]] else []) + NonBlank(blocks[1..])
  }

  /** The filter keeps exactly the blocks that are not blank after trimming. */
  lemma {:induction false} NonBlankKeepsFieldBlocks(blocks: seq<string>)
    ensures forall b :: b in NonBlank(blocks) <==> b in blocks && Trim(b) != ""
  {
    if blocks != [] {
      NonBlankKeepsFieldBlocks(blocks[1..]);
      assert blocks == [blocks[0]] + blocks[1..];
    }
  }

  /** What each block yields, in block order. */
  function BlockFields(blocks: seq<string>): seq<Option<FormField>> {
    seq(|blocks|, i requires 0 <= i < |blocks| => BlockField(blocks[i]))
  }

  /** The fields of a whole `dump_data_fields` output, one per named block. */
  function PdftkFields(stdout: string): seq<FormField> {
    Somes(BlockFields(NonBlank(Split(stdout, BLOCK_SEPARATOR))))
  }

  /** The parsing loop of `extractFieldsWithPdftk`: one field per named block. */
  method ParsePdftkDump(stdout: string) returns (fields: seq<FormField>)
    ensures fields == PdftkFields(stdout)
  {
    var fieldBlocks := NonBlank(Split(stdout, BLOCK_SEPARATOR));
    ghost var parsed := BlockFields(fieldBlocks);
    fields := [];
    for b := 0 to |fieldBlocks|
      invariant fields == Somes(parsed[..b])
    {
      SomesStep(parsed, b);
      var field := ParseBlock(fieldBlocks[b]);
      if field.Some? {
        fields := fields + [field.value];
      }
    }
    SomesOfAll(parsed);
  }

  lemma SomesOfAll<T>(ms: seq<Option<T>>)
    ensures Somes(ms[..|ms|]) == Somes(ms)
  {
    assert ms[..|ms|] == ms;
  }

  /** One more entry appends its value, if it has one. */
  lemma SomesStep<T>(ms: seq<Option<T>>, b: nat)
    requires b < |ms|
    ensures Somes(ms[..b + 1]) == Somes(ms[..b]) + if ms[b].Some? then [ms[b].value] else []
  {
    assert ms[..b + 1][..b] == ms[..b];
  }

  /** Scanning one more line: a match replaces the value kept so far. */
  lemma LastStep(lines: seq<string>, i: nat, key: string)
    requires i < |lines|
    ensures LastValue(lines[..i + 1], key).GetOr("") ==
      if LineValue(lines[i], key).Some? then LineValue(lines[i], key).value else LastValue(lines[..i], key).GetOr("")
  {
    assert Matches(lines[..i + 1], key)[..i] == Matches(lines[..i], key);
  }

  /** Scanning one more line: a match extends the list of values. */
  lemma AllStep(lines: seq<string>, i: nat, key: string)
    requires i < |lines|
    ensures AllValues(lines[..i + 1], key) ==
      AllValues(lines[..i], key) + if LineValue(lines[i], key).Some? then [LineValue(lines[i], key).value] else []
  {
    assert Matches(lines[..i + 1], key)[..i] == Matches(lines[..i], key);
  }

  /** The body of the block loop: scan the block's lines, then push the
      field when a name was found. */
  method ParseBlock(block: string) returns (field: Option<FormField>)
    ensures field == BlockField(block)
  {
    var lines := BlockLines(block);
    var name, fieldType, stateOptions := ScanLines(lines);
    field := FieldFrom(name, fieldType, stateOptions);
  }

  /** The line loop: keep the last name and type and every state option. */
  method ScanLines(lines: seq<string>) returns (name: string, fieldType: string, stateOptions: seq<string>)
    ensures name == LastValue(lines, FIELD_NAME_KEY).GetOr("")
    ensures fieldType == LastValue(lines, FIELD_TYPE_KEY).GetOr("")
    ensures stateOptions == AllValues(lines, STATE_OPTION_KEY)
  {
    name, fieldType, stateOptions := "", "", [];
    for i := 0 to |lines|
      invariant name == LastValue(lines[..i], FIELD_NAME_KEY).GetOr("")
      invariant fieldType == LastValue(lines[..i], FIELD_TYPE_KEY).GetOr("")
      invariant stateOptions == AllValues(lines[..i], STATE_OPTION_KEY)
    {
      var line := lines[i];
      LastStep(lines, i, FIELD_NAME_KEY);
      LastStep(lines, i, FIELD_TYPE_KEY);
      AllStep(lines, i, STATE_OPTION_KEY);
      var nameMatch := LineValue(line, FIELD_NAME_KEY);
      if nameMatch.Some? {
        name := nameMatch.value;
      }
      var typeMatch := LineValue(line, FIELD_TYPE_KEY);
      if typeMatch.Some? {
        fieldType := typeMatch.value;
      }
      var optionMatch := LineValue(line, STATE_OPTION_KEY);
      if optionMatch.Some? {
        stateOptions := stateOptions + [optionMatch.value];
      }
    }
    assert lines[..|lines|] == lines;
  }

  /** The last present value wins: a found value sits at some index after
      which every entry is absent, and nothing is found only when every
      entry is absent. */
  lemma {:induction false} LastSomeIsLast<T>(ms: seq<Option<T>>)
    ensures LastSome(ms).Some? <==> exists i | 0 <= i < |ms| :: ms[i].Some?
    ensures LastSome(ms).Some? ==> exists i | 0 <= i < |ms| ::
      ms[i] == LastSome(ms) && forall j | i < j < |ms| :: ms[j].None?
  {
    if ms != [] {
      var init := ms[..|ms| - 1];
      LastSomeIsLast(init);
      if ms[|ms| - 1].None? && LastSome(init).Some? {
        var i :| 0 <= i < |init| && init[i] == LastSome(init) && forall j | i < j < |init| :: init[j].None?;
        assert ms[i] == LastSome(ms);
      }
    }
  }

  /** The values collected are exactly the present entries. */
  lemma {:induction false} SomesAreThePresentEntries<T>(ms: seq<Option<T>>)
    ensures |Somes(ms)| <= |ms|
    ensures forall v :: v in Somes(ms) <==> Some(v) in ms
  {
    if ms != [] {
      var init := ms[..|ms| - 1];
      SomesAreThePresentEntries(init);
      assert ms == init + [ms[|ms| - 1]];
    }
  }

  /** For field lines: the name, type or option found is the value of a
      matching line with no matching line after it. */
  lemma LastValueIsLastMatch(lines: seq<string>, key: string)
    ensures LastValue(lines, key).Some? <==> exists i | 0 <= i < |lines| :: LineValue(lines[i], key).Some?
    ensures LastValue(lines, key).Some? ==> exists i | 0 <= i < |lines| ::
      && LineValue(lines[i], key) == LastValue(lines, key)
      && forall j | i < j < |lines| :: LineValue(lines[j], key).None?
  {
    LastSomeIsLast(Matches(lines, key));
  }

  /** A block without a matching `FieldName` line gives no field. */
  lemma UnnamedBlockGivesNoField(block: string)
    requires forall i | 0 <= i < |BlockLines(block)| :: LineValue(BlockLines(block)[i], FIELD_NAME_KEY).None?
    ensures BlockField(block).None?
  {
    var lines := BlockLines(block);
    assert LastValue(lines, FIELD_NAME_KEY).None? by {
      LastValueIsLastMatch(lines, FIELD_NAME_KEY);
    }
  }

  /** What every extracted field looks like: a non-empty name, never a radio
      type, no tooltip, length or rectangle, and options (when present) that
      are non-empty and never "Off". */
  predicate WellFormedPdftkField(f: FormField) {
    && f.name != ""
    && f.kind != Radio
    && f.tooltip.None? && f.maxLength.None? && f.rect.None?
    && (f.options.Some? ==> f.options.value != [] && "Off" !in f.options.value)
  }

  lemma BlockFieldWellFormed(block: string)
    requires BlockField(block).Some?
    ensures WellFormedPdftkField(BlockField(block).value)
  {
    var lines := BlockLines(block);
    FieldFromWellFormed(LastValue(lines, FIELD_NAME_KEY).GetOr(""), LastValue(lines, FIELD_TYPE_KEY).GetOr(""),
                        AllValues(lines, STATE_OPTION_KEY));
  }

  lemma FieldFromWellFormed(name: string, fieldType: string, stateOptions: seq<string>)
    requires FieldFrom(name, fieldType, stateOptions).Some?
    ensures WellFormedPdftkField(FieldFrom(name, fieldType, stateOptions).value)
  {
    if exists o | o in stateOptions :: o != "Off" {
      var o :| o in stateOptions && o != "Off";
      assert o in WithoutOff(stateOptions);
    }
  }

  /** At most one field per block, and every field well formed. */
  lemma FieldsOfBlocks(blocks: seq<string>)
    ensures |Somes(BlockFields(blocks))| <= |blocks|
    ensures forall f | f in Somes(BlockFields(blocks)) :: WellFormedPdftkField(f)
  {
    var parsed := BlockFields(blocks);
    forall v | Some(v) in parsed
      ensures WellFormedPdftkField(v)
    {
      var i :| 0 <= i < |parsed| && parsed[i] == Some(v);
      BlockFieldWellFormed(blocks[i]);
    }
    SomesKeepProperty(parsed, WellFormedPdftkField);
  }

  /** A property every present entry has holds of every collected value. */
  lemma SomesKeepProperty<T>(ms: seq<Option<T>>, p: T -> bool)
    requires forall v | Some(v) in ms :: p(v)
    ensures |Somes(ms)| <= |ms| && forall v | v in Somes(ms) :: p(v)
  {
    SomesAreThePresentEntries(ms);
  }

  /** The whole parse: no more fields than non-blank blocks, all well formed. */
  lemma PdftkFieldsWellFormed(stdout: string)
    ensures |PdftkFields(stdout)| <= |Split(stdout, BLOCK_SEPARATOR)|
    ensures forall f | f in PdftkFields(stdout) :: WellFormedPdftkField(f)
  {
    FieldsOfBlocks(NonBlank(Split(stdout, BLOCK_SEPARATOR)));
  }
}
