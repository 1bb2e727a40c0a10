/** Text extraction from `read-pdf.ts`: page ranges, page filtering on form
    feeds, the status header, the decrypt-only output path and the command
    line. pdf-parse and qpdf are outside the model: the text and page count
    pdf-parse reports and qpdf's output are inputs. */
module ReadPdf {
  import opened Results
  import opened JsText
  import opened PdfUtils
  import opened Cli

  // ---------------------------------------------------------------------------
  // Page ranges
  // ---------------------------------------------------------------------------

  /** The pages one comma-separated part names, or its error message. A part
      with a dash is a range of its first two dash-separated pieces. */
  function PartPages(part: string): Result<set<nat>, string> {
    var trimmed := Trim(part);
    if Includes(trimmed, "-") then
      var bounds := Split(trimmed, "-");
      CheckedRange(StringToNumber(bounds[0]), StringToNumber(bounds[1]), trimmed)
    else CheckedPage(StringToNumber(trimmed), trimmed)
  }

  /** A range needs two numbers, the first at least 1 and the second not below it. */
  function CheckedRange(start: Option<nat>, end: Option<nat>, trimmed: string): Result<set<nat>, string> {
    if start.None? || end.None? || start.value < 1 || end.value < start.value then
      Err("Invalid page range: " + trimmed)
    else Ok(Span(start.value, end.value))
  }

  /** A single page needs a number of at least 1. */
  function CheckedPage(n: Option<nat>, trimmed: string): Result<set<nat>, string> {
    if n.None? || n.value < 1 then Err("Invalid page number: " + trimmed) else Ok({n.value})
  }

  /** The pages from `first` to `last`, both included. */
  function Span(first: nat, last: int): (r: set<nat>)
    ensures forall p: nat :: p in r <==> first <= p <= last
    decreases last - first
  {
    if last < first then {} else Span(first, last - 1) + {last}
  }

  /** The union of the parts' pages, or the error of the first failing part. */
  function PagesOfParts(parts: seq<string>): Result<set<nat>, string> {
    if parts == [] then Ok({})
    else
      var init := PagesOfParts(parts[..|parts| - 1]);
      var last := PartPages(parts[|parts| - 1]);
      if init.Err? then init
      else if last.Err? then Err(last.error)
      else Ok(init.value + last.value)
  }

  /** The pages a whole range string names. */
  function RangePages(rangeStr: string): Result<set<nat>, string> {
    PagesOfParts(Split(rangeStr, ","))
  }

  predicate StrictlyAscending(xs: seq<nat>) {
    forall i, j | 0 <= i < j < |xs| :: xs[i] < xs[j]
  }

  lemma PartsStep(parts: seq<string>, k: nat)
    requires k < |parts|
    ensures PagesOfParts(parts[..k + 1]) ==
      var init := PagesOfParts(parts[..k]);
      var last := PartPages(parts[k]);
      if init.Err? then init else if last.Err? then Err(last.error) else Ok(init.value + last.value)
  {
    assert parts[..k + 1][..k] == parts[..k];
  }

  /** Once a prefix fails, the whole list fails with the same message. */
  lemma {:induction false} FirstErrorWins(parts: seq<string>, k: nat)
    requires k <= |parts| && PagesOfParts(parts[..k]).Err?
    ensures PagesOfParts(parts) == PagesOfParts(parts[..k])
    decreases |parts| - k
  {
    if k < |parts| {
      PartsStep(parts, k);
      FirstErrorWins(parts, k + 1);
    } else {
      assert parts[..k] == parts;
    }
  }

  /** `m` is the least element of `s`. */
  predicate IsLeast(m: nat, s: set<nat>) {
    m in s && forall y | y in s :: m <= y
  }

  /** A non-empty finite set of naturals has a least element. */
  lemma {:induction false} MinExists(s: set<nat>)
    requires s != {}
    ensures exists m :: IsLeast(m, s)
    decreases s
  {
    var x :| x in s;
    if s == {x} {
      assert IsLeast(x, s);
    } else {
      var others := s - {x};
      MinExists(others);
      var m :| IsLeast(m, others);
      var least := if x <= m then x else m;
      forall y | y in s
        ensures least <= y
      {
        if y != x {
          assert y in others;
        }
      }
      assert IsLeast(least, s);
    }
  }

  /** `parsePageRange`: collect the pages of every part in a set, then list
      them in ascending order. */
  method ParsePageRange(rangeStr: string) returns (r: Result<seq<nat>, string>)
    ensures RangePages(rangeStr).Err? ==> r == Err(RangePages(rangeStr).error)
    ensures RangePages(rangeStr).Ok? ==>
      && r.Ok? && StrictlyAscending(r.value)
      && forall p :: p in r.value <==> p in RangePages(rangeStr).value
  {
    var parts := Split(rangeStr, ",");
    var pages: set<nat> := {};
    for k := 0 to |parts|
      invariant PagesOfParts(parts[..k]) == Ok(pages)
    {
      PartsStep(parts, k);
      var added := AddPartPages(parts[k], pages);
      if added.Err? {
        FirstErrorWins(parts, k + 1);
        return Err(added.error);
      }
      pages := added.value;
    }
    assert parts[..|parts|] == parts;
    var sorted := SortPages(pages);
    r := Ok(sorted);
  }

  /** The loop body of `parsePageRange` for one part: add its pages to
      `pages`, or stop with its error. */
  method AddPartPages(part: string, pages: set<nat>) returns (r: Result<set<nat>, string>)
    ensures PartPages(part).Err? ==> r == Err(PartPages(part).error)
    ensures PartPages(part).Ok? ==> r == Ok(pages + PartPages(part).value)
  {
    var trimmed := Trim(part);
    if Includes(trimmed, "-") {
      var bounds := Split(trimmed, "-");
      var start, end := StringToNumber(bounds[0]), StringToNumber(bounds[1]);
      assert PartPages(part) == CheckedRange(start, end, trimmed);
      if start.None? || end.None? || start.value < 1 || end.value < start.value {
        return Err("Invalid page range: " + trimmed);
      }
      var acc := AddSpan(pages, start.value, end.value);
      return Ok(acc);
    } else {
      var n := StringToNumber(trimmed);
      assert PartPages(part) == CheckedPage(n, trimmed);
      if n.None? || n.value < 1 {
        return Err("Invalid page number: " + trimmed);
      }
      return Ok(pages + {n.value});
    }
  }

  /** `for (let i = start; i <= end; i++) pages.add(i)`. */
  method AddSpan(pages: set<nat>, start: nat, end: nat) returns (acc: set<nat>)
    requires start <= end
    ensures acc == pages + Span(start, end)
  {
    acc := pages;
    var i := start;
    while i <= end
      invariant start <= i <= end + 1
      invariant acc == pages + Span(start, i - 1)
    {
      acc := acc + {i};
      i := i + 1;
    }
  }

  /** `Array.from(pages).sort((a, b) => a - b)`, by repeatedly taking the
      least remaining page. */
  method SortPages(pages: set<nat>) returns (sorted: seq<nat>)
    ensures StrictlyAscending(sorted)
    ensures forall p :: p in sorted <==> p in pages
  {
    var rest := pages;
    ghost var done: set<nat> := {};
    sorted := [];
    while rest != {}
      invariant StrictlyAscending(sorted)
      invariant pages == rest + done
      invariant forall p :: p in sorted <==> p in done
      invariant forall x, y | x in done && y in rest :: x < y
      decreases rest
    {
      MinExists(rest);
      var m :| IsLeast(m, rest);
      forall i | 0 <= i < |sorted|
        ensures sorted[i] < m
      {
        assert sorted[i] in done;
      }
      sorted := sorted + [m];
      done := done + {m};
      rest := rest - {m};
    }
  }

  /** An ascending list repeats no page. */
  lemma AscendingHasNoDuplicates(xs: seq<nat>)
    requires StrictlyAscending(xs)
    ensures forall i, j | 0 <= i < |xs| && 0 <= j < |xs| && i != j :: xs[i] != xs[j]
  {
    forall i, j | 0 <= i < |xs| && 0 <= j < |xs| && i != j
      ensures xs[i] != xs[j]
    {
      if i < j {
        assert xs[i] < xs[j];
      } else {
        assert xs[j] < xs[i];
      }
    }
  }

  /** Every page a successful parse returns is at least 1. */
  lemma {:induction false} PagesAreAtLeastOne(parts: seq<string>)
    requires PagesOfParts(parts).Ok?
    ensures forall p | p in PagesOfParts(parts).value :: p >= 1
  {
    if parts != [] {
      var init, last := parts[..|parts| - 1], parts[|parts| - 1];
      assert PagesOfParts(parts) == Ok(PagesOfParts(init).value + PartPages(last).value);
      PagesAreAtLeastOne(init);
      PartPagesAtLeastOne(last);
    }
  }

  lemma PartPagesAtLeastOne(part: string)
    requires PartPages(part).Ok?
    ensures forall p | p in PartPages(part).value :: p >= 1
  {
    var trimmed := Trim(part);
    if Includes(trimmed, "-") {
      var bounds := Split(trimmed, "-");
      CheckedAtLeastOne(StringToNumber(bounds[0]), StringToNumber(bounds[1]), None, trimmed);
    } else {
      CheckedAtLeastOne(None, None, StringToNumber(trimmed), trimmed);
    }
  }

  lemma CheckedAtLeastOne(start: Option<nat>, end: Option<nat>, n: Option<nat>, trimmed: string)
    ensures CheckedRange(start, end, trimmed).Ok? ==> forall p | p in CheckedRange(start, end, trimmed).value :: p >= 1
    ensures CheckedPage(n, trimmed).Ok? ==> forall p | p in CheckedPage(n, trimmed).value :: p >= 1
  {
  }

  /** Two digit runs around a dash form a range part whose bounds are their numbers. */
  lemma DigitRangePart(x: string, y: string)
    requires AllDigits(x) && AllDigits(y) && x != [] && y != []
    ensures PartPages(x + "-" + y) == CheckedRange(StringToNumber(x), StringToNumber(y), x + "-" + y)
  {
    var part := x + "-" + y;
    TrimUnspaced(part);
    DigitsAroundDash(x, y);
  }

  lemma DigitsAroundDash(x: string, y: string)
    requires AllDigits(x) && AllDigits(y)
    ensures Includes(x + "-" + y, "-")
    ensures Split(x + "-" + y, "-") == [x, y]
  {
    var part := x + "-" + y;
    assert part[|x|..|x| + 1] == "-";
    IncludesAt(part, "-", |x|);
    DigitsExclude(x, "-");
    DigitsExclude(y, "-");
    SplitPair(x, y, "-");
  }

  /** The part `a-b`, written in digits, names every page from a to b when
      1 <= a <= b, and is an error otherwise. */
  lemma RangePartPages(a: nat, b: nat)
    ensures var part := NatToString(a) + "-" + NatToString(b);
      && (1 <= a <= b ==> PartPages(part) == Ok(Span(a, b)))
      && (!(1 <= a <= b) ==> PartPages(part) == Err("Invalid page range: " + part))
  {
    DigitRangePart(NatToString(a), NatToString(b));
    NumberOfNatToString(a);
    NumberOfNatToString(b);
  }

  /** A single page number, written in digits, names that page when it is at
      least 1, and is an error for 0. */
  lemma SinglePartPages(n: nat)
    ensures n >= 1 ==> PartPages(NatToString(n)) == Ok({n})
    ensures n == 0 ==> PartPages(NatToString(n)).Err?
  {
    var s := NatToString(n);
    TrimUnspaced(s);
    DigitsExclude(s, "-");
    NumberOfNatToString(n);
  }

  // ---------------------------------------------------------------------------
  // Page filtering
  // ---------------------------------------------------------------------------

  const FORM_FEED: string := "\U{000C}"
  const PAGE_GLUE: string := "\n\n"

  /** `parts[p - 1]`, where an index outside the list gives `undefined`,
      which `join` writes as nothing. */
  function Chunk(parts: seq<string>, p: nat): string {
    if 1 <= p <= |parts| then parts[p - 1] else ""
  }

  /** `pages.filter(p => p <= n).map(p => parts[p - 1])`. */
  function Chunks(parts: seq<string>, pages: seq<nat>): (r: seq<string>) {
    if pages == [] then []
    else
      var p := pages[|pages| - 1];
      Chunks(parts, pages[..|pages| - 1]) + if p <= |parts| then [Chunk(parts, p)] else []
  }

  /** `filterPages`: the requested form-feed-separated chunks, joined by a
      blank line; text without a form feed is returned as it is. */
  function FilterPages(text: string, pages: seq<nat>): string {
    var parts := Split(text, FORM_FEED);
    if |parts| <= 1 then text else Join(Chunks(parts, pages), PAGE_GLUE)
  }

  /** Text without a form feed passes through whatever the page list. */
  lemma NoFormFeedKeepsText(text: string, pages: seq<nat>)
    requires !Includes(text, FORM_FEED)
    ensures FilterPages(text, pages) == text
  {
  }

  /** Asking for one page that exists gives exactly that chunk. */
  lemma SinglePageIsItsChunk(text: string, p: nat)
    requires Includes(text, FORM_FEED) && 1 <= p <= |Split(text, FORM_FEED)|
    ensures FilterPages(text, [p]) == Split(text, FORM_FEED)[p - 1]
  {
    var parts := Split(text, FORM_FEED);
    assert Chunks(parts, [p]) == [parts[p - 1]] by {
      assert [p][..0] == [];
    }
  }

  /** A page past the last chunk is dropped without a trace, wherever it
      stands in the list. */
  lemma {:induction false} OutOfRangeIsDropped(parts: seq<string>, before: seq<nat>, p: nat, after: seq<nat>)
    requires p > |parts|
    ensures Chunks(parts, before + [p] + after) == Chunks(parts, before + after)
    decreases |after|
  {
    if after == [] {
      assert before + [p] + after == before + [p];
      assert (before + [p])[..|before|] == before;
      assert before + after == before;
    } else {
      var init := after[..|after| - 1];
      OutOfRangeIsDropped(parts, before, p, init);
      assert (before + [p] + after)[..|before + [p] + after| - 1] == before + [p] + init;
      assert (before + after)[..|before + after| - 1] == before + init;
    }
  }

  /** The chunks come out in the order of the page list. */
  lemma {:induction false} ChunksFollowPageOrder(parts: seq<string>, pages: seq<nat>)
    requires forall i | 0 <= i < |pages| :: 1 <= pages[i] <= |parts|
    ensures var chunks := Chunks(parts, pages);
      |chunks| == |pages| && forall i | 0 <= i < |pages| :: chunks[i] == parts[pages[i] - 1]
  {
    if pages != [] {
      var init := pages[..|pages| - 1];
      ChunksFollowPageOrder(parts, init);
      var chunks, before := Chunks(parts, pages), Chunks(parts, init);
      assert chunks == before + [Chunk(parts, pages[|pages| - 1])];
      forall i | 0 <= i < |pages|
        ensures chunks[i] == parts[pages[i] - 1]
      {
        if i < |init| {
          assert chunks[i] == before[i] && init[i] == pages[i];
        }
      }
    }
  }

  // ---------------------------------------------------------------------------
  // Status header and output
  // ---------------------------------------------------------------------------

  function EncryptionStatus(encrypted: bool, decrypted: bool): string {
    if encrypted then (if decrypted then "Yes (decrypted)" else "Yes (skipped)") else "No"
  }

  /** The status names the state unambiguously. */
  lemma StatusIsUnambiguous(e1: bool, d1: bool, e2: bool, d2: bool)
    requires EncryptionStatus(e1, d1) == EncryptionStatus(e2, d2)
    ensures e1 == e2 && (e1 ==> d1 == d2)
  {
  }

  const PAGES_LABEL: string := "Pages: "
  const STATUS_LABEL: string := " | Encrypted: "
  const SEPARATOR: string := "\n---\n"

  function Header(totalPages: nat, encrypted: bool, decrypted: bool): string {
    PAGES_LABEL + NatToString(totalPages) + STATUS_LABEL + EncryptionStatus(encrypted, decrypted)
  }

  /** The page count reads back from the digits after the label. */
  lemma HeaderStatesPageCount(totalPages: nat, encrypted: bool, decrypted: bool)
    ensures var h := Header(totalPages, encrypted, decrypted);
      PAGES_LABEL <= h && StringToNumber(LeadingDigits(h[|PAGES_LABEL|..])) == Some(totalPages)
  {
    var digits := NatToString(totalPages);
    var status := EncryptionStatus(encrypted, decrypted);
    AfterTag(PAGES_LABEL, digits, STATUS_LABEL, status);
    LeadingDigitsOf(digits, STATUS_LABEL + status);
    NumberOfNatToString(totalPages);
  }

  lemma AfterTag(tag: string, x: string, y: string, z: string)
    ensures tag <= tag + x + y + z
    ensures (tag + x + y + z)[|tag|..] == x + (y + z)
  {
    assert tag + x + y + z == tag + (x + (y + z));
  }

  /** `${header}\n---\n${text}`. */
  function TextOutput(header: string, text: string): string {
    header + SEPARATOR + text
  }

  /** The header holds no line break, so the first separator in the output
      ends the header and everything after it is the text. */
  lemma OutputSplitsAtFirstSeparator(totalPages: nat, encrypted: bool, decrypted: bool, text: string)
    ensures var h := Header(totalPages, encrypted, decrypted);
      var out := TextOutput(h, text);
      IndexOf(out, SEPARATOR) == Some(|h|) && out[|h| + |SEPARATOR|..] == text
  {
    HeaderHasNoLineBreak(totalPages, encrypted, decrypted);
    SplitsAfterLine(Header(totalPages, encrypted, decrypted), text);
  }

  lemma HeaderHasNoLineBreak(totalPages: nat, encrypted: bool, decrypted: bool)
    ensures forall k | 0 <= k < |Header(totalPages, encrypted, decrypted)| ::
      Header(totalPages, encrypted, decrypted)[k] != '\n'
  {
    var digits := NatToString(totalPages);
    assert forall k | 0 <= k < |digits| :: digits[k] != '\n';
  }

  lemma SplitsAfterLine(h: string, text: string)
    requires forall k | 0 <= k < |h| :: h[k] != '\n'
    ensures IndexOf(TextOutput(h, text), SEPARATOR) == Some(|h|)
    ensures TextOutput(h, text)[|h| + |SEPARATOR|..] == text
  {
    var out := TextOutput(h, text);
    forall j | 0 <= j < |h|
      ensures !OccursAt(out, SEPARATOR, j)
    {
      assert out[j] == h[j];
    }
    assert out[|h|..|h| + |SEPARATOR|] == SEPARATOR;
    IndexOfIsLeftmost(out, SEPARATOR, |h|);
  }

  // ---------------------------------------------------------------------------
  // Decrypt-only output path
  // ---------------------------------------------------------------------------

  const DECRYPTED_SUFFIX: string := ".decrypted.pdf"

  /** `/\.pdf$/i` matches: the path ends with ".pdf" in any case. */
  predicate EndsWithPdf(p: string) {
    |p| >= 4 && ToLower(p[|p| - 4..]) == ".pdf"
  }

  /** `resolvedPath.replace(/\.pdf$/i, ".decrypted.pdf")`. */
  function DefaultDecryptedPath(p: string): string {
    if EndsWithPdf(p) then p[..|p| - 4] + DECRYPTED_SUFFIX else p
  }

  /** A path ending in ".pdf" keeps its stem and gets the ".decrypted.pdf"
      ending, so it never names the input file; any other path is kept. */
  lemma DecryptedPathKeepsStem(p: string)
    ensures EndsWithPdf(p) ==>
      var d := DefaultDecryptedPath(p);
      && |d| == |p| + 10 && d[..|p| - 4] == p[..|p| - 4]
      && d[|d| - |DECRYPTED_SUFFIX|..] == DECRYPTED_SUFFIX
      && d != p
    ensures !EndsWithPdf(p) ==> DefaultDecryptedPath(p) == p
  {
  }

  /** The explicit `--output` path when it is given and non-empty, else the default. */
  function DecryptOnlyPath(resolvedPath: string, output: Option<string>): string {
    if Falsy(output) then DefaultDecryptedPath(resolvedPath) else output.value
  }

  // ---------------------------------------------------------------------------
  // The pipeline
  // ---------------------------------------------------------------------------

  /** `ReadPdfOptions`; a value option is `None` when never given. */
  datatype Options = Options(output: Option<string>, decryptOnly: bool, pages: Option<string>, skipDecryption: bool)

  /** What pdf-parse reports for a buffer. */
  datatype ParsedText = ParsedText(text: string, numPages: nat)

  datatype Outcome =
    | DecryptedSaved(path: string, contents: seq<byte>)
    | TextSaved(path: string, output: string)
    | TextPrinted(output: string)

  /** `readPdf` from the file contents on. */
  method ReadPdf(resolvedPath: string, buffer: seq<byte>, options: Options,
                 qpdfAvailable: bool, decryptedBuffer: seq<byte>, parsed: ParsedText)
    returns (r: Result<Outcome, string>)
    ensures var encrypted := IsPdfEncrypted(buffer);
      var decrypts := encrypted && !options.skipDecryption;
      && (decrypts && !qpdfAvailable ==> r == Err(QPDF_INSTALL_MSG))
      && (!(decrypts && !qpdfAvailable) && options.decryptOnly ==>
            r == Ok(DecryptedSaved(DecryptOnlyPath(resolvedPath, options.output),
                                   if decrypts then decryptedBuffer else buffer)))
      && (!(decrypts && !qpdfAvailable) && !options.decryptOnly ==>
            var filter := !Falsy(options.pages);
            if filter && RangePages(options.pages.value).Err? then r == Err(RangePages(options.pages.value).error)
            else
              && r.Ok? && !r.value.DecryptedSaved?
              && (r.value.TextSaved? <==> !Falsy(options.output))
              && (r.value.TextSaved? ==> r.value.path == options.output.value)
              && var header := Header(parsed.numPages, encrypted, decrypts);
                 exists text ::
                   && r.value.output == TextOutput(header, text)
                   && (!filter ==> text == parsed.text)
                   && (filter ==> exists pages: seq<nat> ::
                        && StrictlyAscending(pages)
                        && (forall p :: p in pages <==> p in RangePages(options.pages.value).value)
                        && text == FilterPages(parsed.text, pages)))
  {
    var encrypted := IsPdfEncrypted(buffer);
    var step := DecryptionStep(encrypted, options.skipDecryption, qpdfAvailable);
    if step.Err? {
      return Err(step.error.message);
    }
    var decrypted := step.value;
    var current := if decrypted then decryptedBuffer else buffer;
    if options.decryptOnly {
      return Ok(DecryptedSaved(DecryptOnlyPath(resolvedPath, options.output), current));
    }
    var text := parsed.text;
    if !Falsy(options.pages) {
      var pageNumbers := ParsePageRange(options.pages.value);
      if pageNumbers.Err? {
        return Err(pageNumbers.error);
      }
      text := FilterPages(text, pageNumbers.value);
      assert StrictlyAscending(pageNumbers.value) && text == FilterPages(parsed.text, pageNumbers.value);
    }
    var header := Header(parsed.numPages, encrypted, decrypted);
    var output := TextOutput(header, text);
    assert output == TextOutput(header, text);
    if !Falsy(options.output) {
      return Ok(TextSaved(options.output.value, output));
    }
    return Ok(TextPrinted(output));
  }

  // ---------------------------------------------------------------------------
  // Command line
  // ---------------------------------------------------------------------------

  datatype Scan = Scan(pdfFile: Option<string>, options: Options)

  const INITIAL_SCAN: Scan := Scan(None, Options(None, false, None, false))
  const NO_FILE_MESSAGE: string := "Error: No PDF file specified. Use --help for usage."

  /** The argument loop from index `i` on. */
  function ScanFrom(args: seq<string>, i: nat, acc: Scan): Scan
    decreases |args| - i
  {
    if i >= |args| then acc
    else match args[i]
      case "--output" => ScanFrom(args, i + 2, acc.(options := acc.options.(output := NextArg(args, i))))
      case "--decrypt-only" => ScanFrom(args, i + 1, acc.(options := acc.options.(decryptOnly := true)))
      case "--pages" => ScanFrom(args, i + 2, acc.(options := acc.options.(pages := NextArg(args, i))))
      case "--skip-decryption" => ScanFrom(args, i + 1, acc.(options := acc.options.(skipDecryption := true)))
      case _ =>
        ScanFrom(args, i + 1, if Falsy(acc.pdfFile) && !IsLongFlag(args[i]) then acc.(pdfFile := Some(args[i])) else acc)
  }

  function CommandOf(args: seq<string>): Command<Options> {
    if "--help" in args || "-h" in args || |args| == 0 then ShowHelp
    else
      var scan := ScanFrom(args, 0, INITIAL_SCAN);
      if Falsy(scan.pdfFile) then Fail(NO_FILE_MESSAGE) else Run(scan.pdfFile.value, scan.options)
  }

  /** The command-line front end, with its index-advancing loop. */
  method ParseArgs(args: seq<string>) returns (cmd: Command<Options>)
    ensures cmd == CommandOf(args)
  {
    if "--help" in args || "-h" in args || |args| == 0 {
      return ShowHelp;
    }
    var pdfFile: Option<string> := None;
    var opts := INITIAL_SCAN.options;
    var i := 0;
    while i < |args|
      invariant ScanFrom(args, i, Scan(pdfFile, opts)) == ScanFrom(args, 0, INITIAL_SCAN)
      decreases |args| - i
    {
      var arg := args[i];
      if arg == "--output" {
        opts := opts.(output := NextArg(args, i));
        i := i + 1;
      } else if arg == "--decrypt-only" {
        opts := opts.(decryptOnly := true);
      } else if arg == "--pages" {
        opts := opts.(pages := NextArg(args, i));
        i := i + 1;
      } else if arg == "--skip-decryption" {
        opts := opts.(skipDecryption := true);
      } else if Falsy(pdfFile) && !IsLongFlag(arg) {
        pdfFile := Some(arg);
      }
      i := i + 1;
    }
    if Falsy(pdfFile) {
      return Fail(NO_FILE_MESSAGE);
    }
    return Run(pdfFile.value, opts);
  }

  /** A file that is found is one of the arguments, non-empty and not a `--`
      flag, and once found it is never replaced. */
  lemma {:induction false} FileComesFromArguments(args: seq<string>, i: nat, acc: Scan)
    requires acc.pdfFile.Some? ==> acc.pdfFile.value in args && !IsLongFlag(acc.pdfFile.value)
    ensures var f := ScanFrom(args, i, acc).pdfFile;
      && (!Falsy(f) ==> f.value in args && !IsLongFlag(f.value))
      && (!Falsy(acc.pdfFile) ==> f == acc.pdfFile)
    decreases |args| - i
  {
    if i < |args| {
      match args[i]
      case "--output" => FileComesFromArguments(args, i + 2, acc.(options := acc.options.(output := NextArg(args, i))));
      case "--decrypt-only" => FileComesFromArguments(args, i + 1, acc.(options := acc.options.(decryptOnly := true)));
      case "--pages" => FileComesFromArguments(args, i + 2, acc.(options := acc.options.(pages := NextArg(args, i))));
      case "--skip-decryption" => FileComesFromArguments(args, i + 1, acc.(options := acc.options.(skipDecryption := true)));
      case _ =>
        FileComesFromArguments(args, i + 1,
          if Falsy(acc.pdfFile) && !IsLongFlag(args[i]) then acc.(pdfFile := Some(args[i])) else acc);
    }
  }

  /** A run names a non-empty argument that is not a `--` flag, and a plain
      first argument is the file. */
  lemma RunNamesAnArgument(args: seq<string>)
    ensures CommandOf(args).Run? ==>
      var f := CommandOf(args).file; f != "" && f in args && !IsLongFlag(f)
    ensures CommandOf(args).Run? && args[0] != "" && !IsLongFlag(args[0]) ==> CommandOf(args).file == args[0]
  {
    if CommandOf(args).Run? {
      FileComesFromArguments(args, 0, INITIAL_SCAN);
      if args[0] != "" && !IsLongFlag(args[0]) {
        FileComesFromArguments(args, 1, INITIAL_SCAN.(pdfFile := Some(args[0])));
      }
    }
  }
}
