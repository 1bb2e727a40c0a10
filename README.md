# ai-staff helper scripts, modelled in Dafny

The ai-staff repository ships a handful of command-line helper scripts that
its agents call: `pdf-to-json` (form-field extraction from a PDF, through
pdf-lib or pdftk, grouped by page and part), `read-pdf` (text extraction
with an optional page range and automatic decryption), the shared
`lib/pdf-utils` (encryption detection and the qpdf decryption step),
`resize-image` (crop, resize and re-encode with sharp), `generate-image`
(reference-image resolution and the Gemini request and response),
`parse-input` (checks on a JSON argument and the summary it prints) and
`html-to-png` (Tailwind injection and the headless-browser calls, in a
TypeScript and a JavaScript variant).

This project models the logic of those scripts: every decision they make
on their arguments, on file contents and on what the external tools
return. The external tools themselves are parameters: pdf-lib's field
list, pdftk's standard output, qpdf's result, pdf-parse's text, the file
system seen by `generate-image`, the page read by `html-to-png`.

Modules:

- `Results` (in `js_text.dfy`): `Option` and `Result`.
- `JsText` and `PosixPath` (in `js_text.dfy`): the JavaScript string
  built-ins the scripts use (`indexOf`, `includes`, `split`, `join`,
  `trim`, `toLowerCase`, `Number` on a digit string, `String(n)`,
  `replace`, `filter`) and POSIX `path.basename` and `path.extname`.
  `path.join` is modelled only as the scripts use it: a resolved directory
  and a slash-free entry name joined with one slash, with no `.`, `..` or
  `//` normalisation.
- `Cli` (in `cli.dfy`): the shared shape of the scripts' argument loops.
- `PdfUtils` (in `pdf_utils.dfy`): `isPdfEncrypted` over bytes and the
  decryption decision.
- `Forms`, `Pdftk` (in `pdftk.dfy`): the field record and the pdftk dump
  parser, written as loops as in the source.
- `FieldNames` (in `field_names.dfy`): `parseFieldName`.
- `PdfToJson` (in `pdf_to_json.dfy`): form-type detection, engine selection,
  `buildStructure` as a loop over a map, the whole run, the CLI loop.
- `ReadPdf` (in `read_pdf.dfy`): `parsePageRange` (a loop over a set, then a
  sort), `filterPages`, the header, the decrypted path, the run, the CLI loop.
- `ResizeImage` (in `resize_image.dfy`): the dimension and crop parsers, the
  sharp pipeline as a list of operations, the output name, the CLI loop.
- `GenerateImage` (in `generate_image.dfy`): `resolveReferenceImages` as a
  loop over a modelled file system, `buildContents`, the response handling.
- `ParseInput` (in `parse_input.dfy`): the whole script as a function of
  its arguments and the outcome of `JSON.parse`.
- `HtmlToPng` (in `html_to_png.dfy`): `injectTailwind`, the size defaults,
  the browser command lines for agent-browser and playwright-cli, the
  output path.

The `.ts` and `.js` variants of `html-to-png` share one model: their
injection is the same text, and they differ only in the browser front end
(agent-browser with `set viewport` and `--full`; playwright-cli with
`resize` and `--full-page`), which is the `Browser` parameter.

## Model

| member | source | states |
|---|---|---|
| JsText.IndexOf | src/scripts/html-to-png.ts:28 | the result is the leftmost position where the pattern occurs, and None exactly when it occurs nowhere |
| JsText.IndexOfFrom | src/scripts/html-to-png.ts:31 | the result is at or after the start, the pattern occurs there, and no earlier position from the start has it |
| JsText.Split | src/scripts/read-pdf.ts:23 | joining the pieces with the separator gives back the string, no piece holds the separator, and there is one piece exactly when the separator does not occur |
| JsText.SplitJoin | src/scripts/resize-image.ts:21 | splitting the join of separator-free pieces gives those pieces back |
| JsText.IndexOfIsLeftmost | src/scripts/html-to-png.ts:28-30 | the leftmost occurrence is the index returned |
| JsText.TrimEmptyIffAllSpace | src/scripts/pdf-to-json.ts:225 | a string trims to empty exactly when it is all white space |
| JsText.TrimSkipsLeadingSpace | src/scripts/read-pdf.ts:24 | leading white space does not change the trimmed result |
| JsText.ToLower | src/scripts/generate-image.ts:46 | same length, each character lower-cased, other characters kept |
| JsText.ToLowerIdempotent | src/scripts/pdf-to-json.ts:197 | lower-casing twice is lower-casing once |
| JsText.NatToString | src/scripts/read-pdf.ts:109 | a non-empty digit string whose value is n, with no leading zero except for 0 itself |
| JsText.LeadingDigits | src/scripts/pdf-to-json.ts:279 | the longest all-digit prefix: a prefix, all digits, and followed by a non-digit or the end |
| JsText.NumberOfNatToString | src/scripts/read-pdf.ts:32 | `Number(String(n)) == n` |
| JsText.FilterKeepsOrder | src/scripts/parse-input.ts:42-44 | filtering a concatenation is the concatenation of the filtered parts |
| JsText.FilterMembership | src/scripts/generate-image.ts:45-47 | an element is kept exactly when it is in the list and passes the test |
| JsText.ReplaceChar | src/scripts/html-to-png.ts:77 | same length; each copy of the character is replaced, every other character kept |
| JsText.AbsentCharNotIncluded | src/scripts/parse-input.ts:57 | a string without a character does not include the one-character pattern |
| PosixPath.Basename | src/scripts/resize-image.ts:108 | the result holds no slash, and is the path itself when the path has none |
| PosixPath.Extname | src/scripts/resize-image.ts:89 | empty, or a suffix of the base name that starts with its only dot there and is shorter than the base name |
| PosixPath.ExtnameOfName | src/scripts/resize-image.ts:112 | `stem.ext` with a non-empty stem has extension `.ext` |
| PosixPath.ExtnameOfJoin | src/scripts/generate-image.ts:52 | joining a slash-free name under a directory keeps the name's extension |
| PdfUtils.Latin1 | src/scripts/lib/pdf-utils.ts:22 | one character per byte, with the byte's code |
| PdfUtils.Latin1Injective | src/scripts/lib/pdf-utils.ts:22 | decoding tells different byte strings apart |
| PdfUtils.Latin1Search | src/scripts/lib/pdf-utils.ts:22-23 | searching the latin1 text for the decoding of a byte pattern is searching the bytes for that pattern |
| PdfUtils.Latin1SearchIsByteSearch | src/scripts/lib/pdf-utils.ts:22-23 | searching the decoded text for "/Encrypt" is searching the bytes for its eight codes |
| PdfUtils.EncryptedIffMarkerInWindow | src/scripts/lib/pdf-utils.ts:20-24 | encrypted exactly when the marker bytes start and end within the first 10000 bytes |
| PdfUtils.TailIsIgnored | src/scripts/lib/pdf-utils.ts:21 | bytes after the first 10000 do not change the answer |
| PdfUtils.ShortBufferIsClear | src/scripts/lib/pdf-utils.ts:20-24 | a buffer shorter than the marker is never encrypted |
| PdfUtils.AppendKeepsEncrypted | src/scripts/lib/pdf-utils.ts:20-24 | appending bytes keeps an encrypted buffer encrypted |
| PdfUtils.DecryptionStep | src/scripts/read-pdf.ts:66-78 | fails with the qpdf install message exactly when the PDF is encrypted, decryption is not skipped and qpdf is missing; otherwise decrypts exactly when encrypted and not skipped |
| Pdftk.ParsePdftkFieldType | src/scripts/pdf-to-json.ts:196-207 | text, button and choice in any case give text, checkbox and dropdown; nothing gives radio |
| Pdftk.FieldTypeIgnoresCase | src/scripts/pdf-to-json.ts:197 | the type does not depend on the case of the name |
| Pdftk.OtherTypesAreUnknown | src/scripts/pdf-to-json.ts:205 | every other name gives unknown |
| Pdftk.LineValueIsTrimmedCapture | src/scripts/pdf-to-json.ts:233-241 | a line yields a value exactly when the key is followed by a non-empty rest without a line terminator, and the value is the trimmed capture whatever its start |
| Pdftk.WithoutOff | src/scripts/pdf-to-json.ts:248 | the kept options are exactly the given ones other than "Off" |
| Pdftk.WithoutOffKeepsOrder | src/scripts/pdf-to-json.ts:248 | the filter distributes over concatenation, so the kept options stay in their listed order |
| Pdftk.WithoutOffKeepsClean | src/scripts/pdf-to-json.ts:248 | options without "Off" are kept as they are |
| Pdftk.NonBlankKeepsFieldBlocks | src/scripts/pdf-to-json.ts:225 | a block is kept exactly when it is in the list and does not trim to empty |
| Pdftk.ParsePdftkDump | src/scripts/pdf-to-json.ts:225-256 | the loop returns one field per named block, in order |
| Pdftk.ParseBlock | src/scripts/pdf-to-json.ts:227-254 | the line loop yields the block's field: last name, last type, all state options |
| Pdftk.ScanLines | src/scripts/pdf-to-json.ts:229-242 | after the line loop, the name and type are the trimmed captures of the last matching lines ("" when none) and the state options are every matching capture in order |
| Pdftk.LastSomeIsLast | src/scripts/pdf-to-json.ts:234-236 | the last present value exists exactly when some value is present, and no later one is |
| Pdftk.SomesAreThePresentEntries | src/scripts/pdf-to-json.ts:238-240 | the collected values are exactly the present ones |
| Pdftk.LastValueIsLastMatch | src/scripts/pdf-to-json.ts:234-237 | a later `FieldName:` line overrides an earlier one |
| Pdftk.UnnamedBlockGivesNoField | src/scripts/pdf-to-json.ts:243 | a block without a name line gives no field |
| Pdftk.BlockFieldWellFormed | src/scripts/pdf-to-json.ts:243-253 | a pdftk field has a name, is never radio, has no tooltip, length or rectangle, and options only when some are not "Off" |
| Pdftk.FieldsOfBlocks | src/scripts/pdf-to-json.ts:227-256 | at most one field per block, each well formed |
| Pdftk.PdftkFieldsWellFormed | src/scripts/pdf-to-json.ts:209-262 | at most one field per `---` block of the output, each well formed |
| FieldNames.FindTag | src/scripts/pdf-to-json.ts:279-285 | the leftmost position from the start where the tag, digits and `[` match, or None when none does |
| FieldNames.TagValueIsFirstMatch | src/scripts/pdf-to-json.ts:279-285 | a page or part exists exactly when its tag occurs, and is the prefix plus the digits of the leftmost match |
| FieldNames.LastSegment | src/scripts/pdf-to-json.ts:287 | the dot-free tail after the last dot |
| FieldNames.JoinEndsWithLast | src/scripts/pdf-to-json.ts:287 | a join ends with its last piece, after the separator |
| FieldNames.TrailingDigits | src/scripts/pdf-to-json.ts:288 | the longest all-digit suffix |
| FieldNames.StripIndex | src/scripts/pdf-to-json.ts:288 | one trailing `[digits]` is removed when present, and the segment is unchanged otherwise |
| FieldNames.NoIndexSuffix | src/scripts/pdf-to-json.ts:288 | when the digits before the closing `]` are all the trailing digits and no `[` precedes them, no `[N]` suffix exists at any position |
| FieldNames.ItemIsLineNumber | src/scripts/pdf-to-json.ts:294-298 | an item exists exactly when the descriptor starts with "Line" in any case and a digit; it is the digits and an optional letter |
| FieldNames.FindDescription | src/scripts/pdf-to-json.ts:300-304 | the leftmost underscore followed by a non-empty line |
| FieldNames.DescriptionAfterFirstUnderscore | src/scripts/pdf-to-json.ts:300-304 | a description exists exactly when such an underscore does, and is the text after the leftmost one |
| FieldNames.ParsedParts | src/scripts/pdf-to-json.ts:276-308 | the whole parse: raw name kept, page and part as the leftmost tags, descriptor as the stripped last segment, item and description from it |
| FieldNames.LastSegmentAfter | src/scripts/pdf-to-json.ts:287 | after the last dot comes the last segment |
| FieldNames.StripIndexAt | src/scripts/pdf-to-json.ts:288 | a present `[N]` suffix is cut where it starts |
| FieldNames.ItemAndDescriptionExample | src/scripts/pdf-to-json.ts:294-304 | "Line1a_FamilyName" has item "1a" and description "FamilyName" |
| PdfToJson.MentionsXfaIsByteSearch | src/scripts/pdf-to-json.ts:85-89 | the latin1 text names an XFA marker exactly when the bytes hold the codes of `/XFA`, `<xdp:xdp` or `xmlns:xfa` |
| PdfToJson.DetectFormType | src/scripts/pdf-to-json.ts:84-111 | XFA exactly when the whole buffer holds the bytes of one of the three markers, AcroForm exactly when pdf-lib lists fields, XFA-only exactly when a marker is present and pdf-lib lists none |
| PdfToJson.EmbeddedKeepsXfa | src/scripts/pdf-to-json.ts:85-89 | bytes added before or after an XFA buffer keep it XFA |
| PdfToJson.ShortBufferIsNotXfa | src/scripts/pdf-to-json.ts:85-89 | a buffer shorter than four bytes is neither XFA nor XFA-only |
| PdfToJson.ExtractWithPdftk | src/scripts/pdf-to-json.ts:209-262 | pdftk's output gives its fields and no warning; a failure gives no field and one error warning; the result is `PdftkExtraction` of the run |
| PdfToJson.SelectEngine | src/scripts/pdf-to-json.ts:392-437 | XFA-only goes to pdftk or warns; AcroForm uses pdf-lib and falls back to pdftk on zero fields; otherwise no fields and one warning; no engine exactly when no fields; the engine, fields and warnings are those of the selection table `Selected` |
| PdfToJson.StructuredCopiesTruthy | src/scripts/pdf-to-json.ts:325-334 | falsy tooltip and length are dropped, truthy attributes copied, item and description from the name |
| PdfToJson.FileEntry | src/scripts/pdf-to-json.ts:319-335 | one iteration appends the field to its group, creating page and part when new |
| PdfToJson.BuildStructure | src/scripts/pdf-to-json.ts:314-340 | the loop builds the grouped tree of the field list |
| PdfToJson.GroupsOfEntries | src/scripts/pdf-to-json.ts:314-340 | each group holds exactly the fields with its page and part, in input order |
| PdfToJson.GroupsAreFilters | src/scripts/pdf-to-json.ts:314-340 | the same for the tree of a field list |
| PdfToJson.KeysOfEntries | src/scripts/pdf-to-json.ts:319-323 | a page or part key exists exactly when some entry has it |
| PdfToJson.KeysComeFromFields | src/scripts/pdf-to-json.ts:319-323 | a page or part key exists exactly when some field's name gives it |
| PdfToJson.MapSumRemove | src/scripts/pdf-to-json.ts:314-340 | the sum over a map is one value plus the sum over the rest |
| PdfToJson.MapSumUpdate | src/scripts/pdf-to-json.ts:330-334 | updating one key changes the sum by the difference |
| PdfToJson.PlaceAddsOne | src/scripts/pdf-to-json.ts:330-334 | placing a field adds one field to the tree |
| PdfToJson.GroupedCountsAllEntries | src/scripts/pdf-to-json.ts:317-337 | the tree holds as many fields as there are entries |
| PdfToJson.StructureCountsAllFields | src/scripts/pdf-to-json.ts:314-340 | no field is lost or duplicated by grouping |
| PdfToJson.PdfToJson | src/scripts/pdf-to-json.ts:366-466 | fails exactly as the decryption step does; otherwise the flags, page count, field count, structure and form type agree with the inputs, the engine, fields and warnings are those `Selected` for the form type of the (decrypted) buffer, pdftk's availability, pdf-lib's extraction and pdftk's run, and warnings are present exactly when there is at least one |
| PdfToJson.ParseArgs | src/scripts/pdf-to-json.ts:480-520 | the argument loop gives the command of its specification |
| PdfToJson.FileIsKept | src/scripts/pdf-to-json.ts:511-513 | once a file is chosen, later arguments do not change it |
| PdfToJson.FileIsAnArgument | src/scripts/pdf-to-json.ts:511-513 | the file chosen is an argument that is not a long flag |
| PdfToJson.RunNamesAnArgument | src/scripts/pdf-to-json.ts:497-520 | a run names a non-empty non-flag argument, the first one when it leads |
| PdfToJson.OptionsComeFromFlags | src/scripts/pdf-to-json.ts:497-515 | an option changes only when its flag is present |
| ReadPdf.Span | src/scripts/read-pdf.ts:28-29 | exactly the pages from the first to the last |
| ReadPdf.ParsePageRange | src/scripts/read-pdf.ts:21-38 | the error of the first bad part, or the named pages strictly ascending |
| ReadPdf.AddPartPages | src/scripts/read-pdf.ts:23-35 | one part adds its pages or gives its error |
| ReadPdf.AddSpan | src/scripts/read-pdf.ts:28-29 | the inner loop adds the whole span |
| ReadPdf.SortPages | src/scripts/read-pdf.ts:37 | the set, strictly ascending |
| ReadPdf.FirstErrorWins | src/scripts/read-pdf.ts:23-35 | after a bad part the result is that part's error |
| ReadPdf.AscendingHasNoDuplicates | src/scripts/read-pdf.ts:37 | the sorted page list repeats no page |
| ReadPdf.PagesAreAtLeastOne | src/scripts/read-pdf.ts:25-34 | every accepted page is at least 1 |
| ReadPdf.DigitsAroundDash | src/scripts/read-pdf.ts:25-26 | `a-b` with numerals splits at the dash into the numerals |
| ReadPdf.DigitRangePart | src/scripts/read-pdf.ts:25-30 | a numeral range is checked on its two numbers |
| ReadPdf.RangePartPages | src/scripts/read-pdf.ts:25-30 | `a-b` gives pages a to b when 1 <= a <= b and the range error otherwise |
| ReadPdf.SinglePartPages | src/scripts/read-pdf.ts:32-34 | a single numeral n gives page n when n >= 1 and an error for 0 |
| ReadPdf.NoFormFeedKeepsText | src/scripts/read-pdf.ts:47 | text without a form feed is returned unchanged |
| ReadPdf.SinglePageIsItsChunk | src/scripts/read-pdf.ts:45-55 | asking for one page gives that chunk |
| ReadPdf.OutOfRangeIsDropped | src/scripts/read-pdf.ts:50-52 | a page past the end contributes nothing |
| ReadPdf.ChunksFollowPageOrder | src/scripts/read-pdf.ts:50-54 | the chunks follow the page list, one per page |
| ReadPdf.StatusIsUnambiguous | src/scripts/read-pdf.ts:104-108 | the status text determines the encryption state |
| ReadPdf.HeaderStatesPageCount | src/scripts/read-pdf.ts:109 | the page count reads back from the header |
| JsText.LeadingDigitsOf | src/scripts/read-pdf.ts:109 | digits followed by a non-digit are the leading digits |
| ReadPdf.OutputSplitsAtFirstSeparator | src/scripts/read-pdf.ts:111 | the first separator ends the header and the text follows it unchanged |
| ReadPdf.DecryptedPathKeepsStem | src/scripts/read-pdf.ts:82-84 | a `.pdf` path keeps its stem and gets `.decrypted.pdf`, never the input; other paths are kept |
| ReadPdf.ReadPdf | src/scripts/read-pdf.ts:60-122 | the install error, the decrypt-only save, the range error, or the header and the (filtered) text printed or saved |
| ReadPdf.ParseArgs | src/scripts/read-pdf.ts:133-170 | the argument loop gives the command of its specification |
| ReadPdf.FileComesFromArguments | src/scripts/read-pdf.ts:161-163 | the file is a non-flag argument and is kept once chosen |
| ReadPdf.RunNamesAnArgument | src/scripts/read-pdf.ts:147-170 | a run names a non-empty non-flag argument, the first one when it leads |
| ResizeImage.DimensionsAreTwoNumerals | src/scripts/resize-image.ts:20-24 | what is accepted is two numerals around one `x`, read as numbers |
| ResizeImage.NumeralsAreDimensions | src/scripts/resize-image.ts:20-24 | two numerals around an `x` are accepted |
| ResizeImage.DimensionsRoundTrip | src/scripts/resize-image.ts:20-24 | printing dimensions as `WxH` and parsing gives them back |
| ResizeImage.CropWithoutOffsetIsDimensions | src/scripts/resize-image.ts:29-44 | a crop without offset is accepted exactly when the dimensions are, with the same numbers |
| ResizeImage.CropSpecRoundTrip | src/scripts/resize-image.ts:29-44 | printing a crop spec and parsing gives it back |
| ResizeImage.NumeralsAreCropSpec | src/scripts/resize-image.ts:29-44 | any four digit runs written `WxH+X+Y`, leading zeros included, are accepted with their values |
| ResizeImage.CropSpecIsNumerals | src/scripts/resize-image.ts:29-44 | a spec accepted with an offset is four digit runs written `WxH+X+Y`, read as numbers |
| ResizeImage.OffsetTail | src/scripts/resize-image.ts:38-42 | `h+l+t` with numerals splits into the three numerals |
| ResizeImage.ResizeImage | src/scripts/resize-image.ts:49-119 | the method computes the plan of its specification |
| ResizeImage.ChooseOutputPath | src/scripts/resize-image.ts:103-113 | the given output, or the default name under the output directory |
| ResizeImage.StagesInOrder | src/scripts/resize-image.ts:58-100 | the operations run crop, then resize, then encode |
| ResizeImage.StepStages | src/scripts/resize-image.ts:58-100 | each step adds at most one operation of its stage |
| ResizeImage.InStageOrder | src/scripts/resize-image.ts:58-100 | the concatenation of the steps is in stage order |
| ResizeImage.CropComesFirst | src/scripts/resize-image.ts:58-76 | a crop is the first operation: an extract with an offset, a cover resize with the gravity otherwise |
| ResizeImage.CropErrorComesFirst | src/scripts/resize-image.ts:58-61 | a bad crop spec is reported before anything else |
| ResizeImage.FormatIsNormalised | src/scripts/resize-image.ts:89-91 | `jpg` becomes `jpeg`, and the format is jpeg exactly when jpg or jpeg was asked for or found |
| ResizeImage.DefaultOutputKeepsFormat | src/scripts/resize-image.ts:107-112 | the default output name carries the format as its extension |
| ResizeImage.NamedByFormat | src/scripts/resize-image.ts:112 | a name ending in the format's extension reads back as that format |
| ResizeImage.DottedLower | src/scripts/resize-image.ts:112 | a dot keeps a lower-case extension lower-case |
| ResizeImage.ExtensionIsLower | src/scripts/resize-image.ts:112 | a lower-case format gives a lower-case extension |
| ResizeImage.StemHasNoSlash | src/scripts/resize-image.ts:108 | the stem of a path holds no slash |
| ResizeImage.SuffixHasNoSlash | src/scripts/resize-image.ts:109-111 | the size and crop suffixes hold no slash |
| ResizeImage.DimensionsHaveNoSlash | src/scripts/resize-image.ts:20-24 | accepted dimensions hold no slash |
| ResizeImage.CropHasNoSlash | src/scripts/resize-image.ts:29-44 | an accepted crop spec holds no slash |
| ResizeImage.NumeralHasNoSlash | src/scripts/resize-image.ts:21 | a numeral holds no slash |
| ResizeImage.ParseArgs | src/scripts/resize-image.ts:131-165 | the argument loop gives the command of its specification |
| ResizeImage.ScanArg | src/scripts/resize-image.ts:132-157 | one turn of the switch advances past the argument (and a flag's value) without changing what the remaining scan yields |
| ResizeImage.NoWorkIsRefused | src/scripts/resize-image.ts:160-165 | without resize, crop or format the usage is printed |
| ResizeImage.NoWorkStaysUnset | src/scripts/resize-image.ts:131-158 | without those flags the loop leaves them unset |
| ResizeImage.FirstArgumentIsInput | src/scripts/resize-image.ts:155-157 | a leading non-flag argument is the input |
| ResizeImage.InputIsKept | src/scripts/resize-image.ts:155-157 | once the input is chosen, later arguments do not change it |
| GenerateImage.ResolveReferenceImages | src/scripts/generate-image.ts:36-81 | the loops compute the reference images of their specification |
| GenerateImage.PushReference | src/scripts/generate-image.ts:40-62 | one reference adds its images or gives its error |
| GenerateImage.PushJoined | src/scripts/generate-image.ts:51-53 | the matched names are added joined to the directory, in order |
| GenerateImage.CollectFirstErrorWins | src/scripts/generate-image.ts:39-63 | after a bad reference the result is that reference's error |
| GenerateImage.MapAllFirstErrorWins | src/scripts/generate-image.ts:71-80 | after a file that is too large the result is that file's error |
| GenerateImage.MatchedIsOrderedFilter | src/scripts/generate-image.ts:45-47 | a directory entry is kept exactly when its extension is supported, in listing order |
| GenerateImage.CollectKeepsOrder | src/scripts/generate-image.ts:39-63 | the images of two reference lists are the images of each, in order |
| GenerateImage.ExpandAllKeepsOrder | src/scripts/generate-image.ts:39-63 | references are expanded in the order given |
| GenerateImage.MapAllPointwise | src/scripts/generate-image.ts:71-80 | one result per file, each that file's own |
| GenerateImage.CountIsCheckedBeforeSizes | src/scripts/generate-image.ts:65-69 | more than ten images fail with the count before any size is looked at |
| GenerateImage.MeasuredImage | src/scripts/generate-image.ts:72-79 | an accepted file keeps its path, has its table MIME type and is within 20 MB |
| GenerateImage.MeasuredImages | src/scripts/generate-image.ts:71-80 | the same for every accepted file, in order |
| GenerateImage.ResolvedAreWithinLimits | src/scripts/generate-image.ts:65-80 | at most ten images, each within 20 MB |
| GenerateImage.SizeCapIsInclusive | src/scripts/generate-image.ts:72-77 | a file of exactly 20 MB is accepted, one byte more is refused |
| GenerateImage.SingleReference | src/scripts/generate-image.ts:54-80 | a single supported file is accepted exactly when within the cap |
| GenerateImage.SingleFileExpands | src/scripts/generate-image.ts:54-62 | a supported file reference is itself |
| GenerateImage.CollectSingle | src/scripts/generate-image.ts:39-63 | one reference gives its own expansion |
| GenerateImage.MapAllSingle | src/scripts/generate-image.ts:71-80 | one file gives its own measurement |
| GenerateImage.EveryImageHasTableMime | src/scripts/generate-image.ts:71-79 | every image is supported and has its extension's MIME type; `.jpg` and `.jpeg` share one |
| GenerateImage.ExpandedAreSupported | src/scripts/generate-image.ts:43-62 | every expanded path has a supported extension |
| GenerateImage.JoinedAreSupported | src/scripts/generate-image.ts:51-53 | joining supported names under a directory keeps them supported |
| GenerateImage.PromptComesLast | src/scripts/generate-image.ts:86-101 | one user message: an image part per reference, in order, then the prompt |
| GenerateImage.ExtensionIsSubtype | src/scripts/generate-image.ts:124 | the file extension is the MIME subtype, "png" when it is missing or empty |
| GenerateImage.SavedFileNamedByMime | src/scripts/generate-image.ts:124-125 | an `image/<sub>` part is saved in the output directory as `<filename>.<sub>`, whose extension is the subtype |
| GenerateImage.FirstImagePart | src/scripts/generate-image.ts:122-132 | the first part holding image data, or the no-image error exactly when none does |
| ParseInput.EntryLines | src/scripts/parse-input.ts:56-58 | one line per key, in order |
| ParseInput.UsageWhenArgumentMissing | src/scripts/parse-input.ts:18-25 | the usage message exactly when the JSON or the output path is absent or empty, with exit code 1 |
| ParseInput.OnlyObjectsAreAccepted | src/scripts/parse-input.ts:36-39 | null, arrays and primitives, and only they, get the object message |
| ParseInput.MissingMeansAbsentEmptyOrNull | src/scripts/parse-input.ts:42-44 | a required field is missing exactly when absent, empty or null; false and 0 are present |
| ParseInput.MissingKeepsArgumentOrder | src/scripts/parse-input.ts:42-44 | missing fields are listed in argument order |
| ParseInput.SucceedsIffNothingMissing | src/scripts/parse-input.ts:42-59 | the object is written unchanged exactly when nothing is missing; otherwise the missing list is reported |
| ParseInput.OnlyNullIsNotSet | src/scripts/parse-input.ts:57 | null shows as "(not set)"; "", false and 0 show as themselves |
| ParseInput.SummaryHasOneLinePerKey | src/scripts/parse-input.ts:56-59 | for an object with keys, the summary splits into the header, whose count reads back, and one line per key |
| ParseInput.EmptySummary | src/scripts/parse-input.ts:56-59 | for the empty object the header reads back 0 and one empty line follows |
| ParseInput.HeaderIsOneLine | src/scripts/parse-input.ts:59 | the header holds no line break |
| HtmlToPng.StyledIsUnchanged | src/scripts/html-to-png.ts:24-26 | a page that already mentions Tailwind is unchanged |
| HtmlToPng.InsertedBeforeFirstHeadClose | src/scripts/html-to-png.ts:28-30 | the tag goes right before the first `</head>`, everything else kept |
| HtmlToPng.InsertedAfterFirstHeadOpen | src/scripts/html-to-png.ts:31-33 | without `</head>` the tag goes right after the first `<head>` |
| HtmlToPng.PrependedWithoutHead | src/scripts/html-to-png.ts:34 | without either the tag line is prepended |
| HtmlToPng.TagIsStyled | src/scripts/html-to-png.ts:11 | the tag itself mentions Tailwind |
| HtmlToPng.InjectedIsStyled | src/scripts/html-to-png.ts:23-35 | every injected page mentions Tailwind |
| HtmlToPng.InjectIsIdempotent | src/scripts/html-to-png.js:18-30 | injecting twice is injecting once |
| HtmlToPng.SizeDefaults | src/scripts/html-to-png.ts:54-55 | a given non-zero size is used, 0 or none gives 1200 by 630 |
| HtmlToPng.FileUrlUsesForwardSlashes | src/scripts/html-to-png.ts:77 | the URL is `file:///` and the path with each backslash turned into a slash |
| HtmlToPng.FullPageFlagIffAsked | src/scripts/html-to-png.js:92-94 | the screenshot path comes first and the full-page flag appears exactly when asked |
| HtmlToPng.RenderCommandsInOrder | src/scripts/html-to-png.ts:78-109 | six calls in the named session: open, viewport, wait, screenshot, close, and the clean-up close of the `finally` block |
| HtmlToPng.SessionPrefix | src/scripts/html-to-png.ts:40-48 | each call starts with the session arguments, then the command and its arguments |
| HtmlToPng.ViewportStatesSize | src/scripts/html-to-png.js:86 | the viewport call's last two arguments read back as width and height |
| HtmlToPng.OutputPathChoice | src/scripts/html-to-png.ts:95-97 | the given output, or `<uuid>.png` in the images directory |
| HtmlToPng.RenderOrNotFound | src/scripts/html-to-png.ts:53-111 | fails exactly when the page was not read; otherwise the page carries Tailwind, an already styled page is sent as it is, and the six calls of `Commands` follow |

## Left out

- JavaScript `Number` on strings is modelled for what the scripts feed it:
  a trimmed empty string is 0, a string of decimal digits is its value, and
  anything else is NaN. Signs, decimals, exponents, hexadecimal and
  `Infinity` are not modelled.
- ReadPdf.ParsePageRange: parts such as `1.0` or `0x2`, which `Number`
  accepts, are refused here, as the previous line says.
- ResizeImage.ParseArgs: `--quality` is taken as a digit string; a decimal
  or signed quality is not modelled, for the same reason.
- Case folding is ASCII only. Every comparison the scripts make is against
  ASCII text, and no non-ASCII character lower-cases to ASCII there. The
  lower-cased extension is also output, though: `resize-image` uses it as
  the output format and the default output extension, and `generate-image`
  puts it in its error message. For a non-ASCII extension the source
  lower-cases every letter (`photo.ÉPS` gives `.éps`) while the model keeps
  non-ASCII letters as they are (`.Éps`).
- `path.resolve` and the current directory are not modelled: paths are taken
  as already resolved. `path.basename` of a path with a trailing slash is
  not modelled.
- Floating point: pdf-lib widget rectangles are copied through as reals,
  and the megabyte figure in the size error message is not modelled.
- JSON numbers are integers; `JSON.parse` and `JSON.stringify` formatting
  are not modelled: the parse outcome is an input. An object is a list of
  entries; `JSON.parse` keeps only the last value of a repeated key, while
  the model's lookup takes the first entry and ParseInput.Summary lists
  every entry, so input with repeated keys is not modelled. The `in` operator's view of inherited
  prototype keys is not modelled.
- I/O and external tools are parameters: pdf-lib, pdftk, qpdf, pdf-parse,
  sharp, agent-browser, playwright-cli and the Gemini API. Their results
  enter as arguments and their effects are described as values.
- base64 encoding, UUID generation, temporary directories, `async` ordering
  and the `finally` cleanup of temporary files are not modelled.
- `json-extract.js` is not part of this model.
- The command-line loops of `generate-image` and both `html-to-png`
  variants are not modelled; their library functions are.
- GenerateImage.SizeOf: a directory counts as size 0; the size
  `fs.statSync` reports for a directory whose name has an image extension
  is not modelled.
- PdfToJson.PdfToJson: a failing `decryptPdf` (qpdf exiting with an error)
  and a failing pdf-lib load or page count are not modelled: the decrypted
  bytes and pdf-lib's results are inputs, so the only error modelled is the
  encrypted file without qpdf.
- HtmlToPng.RenderOrNotFound: failures of the browser calls (a non-zero
  exit or the 30-second timeout of `execFileSync`) and of the sharp
  compression are not modelled; with those, a run can also fail after the
  page was read.
- HtmlToPng.Options: width and height are natural numbers. A negative or
  fractional number, which is truthy and reaches `String(width)`, is not
  modelled.
- JsText.ReplaceFirst: the `$` patterns of `String.prototype.replace` are
  not modelled; the replacement text in `injectTailwind` holds none.
