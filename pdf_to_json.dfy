/** The form-extraction pipeline of `pdf-to-json.ts`: form-type detection,
    the choice between pdf-lib and pdftk, grouping the fields into a
    page → part → fields tree, the output record and the command line.
    pdf-lib, pdftk and qpdf are outside the model: what they report is an
    input. */
module PdfToJson {
  import opened Results
  import opened JsText
  import opened PdfUtils
  import opened Forms
  import opened FieldNames
  import opened Cli
  import Pdftk

  // ---------------------------------------------------------------------------
  // Form type
  // ---------------------------------------------------------------------------

  datatype FormType = FormType(hasXFA: bool, hasAcroForm: bool, isXFAOnly: bool)

  /** The markers whose presence in the latin1 text means an XFA form. */
  predicate MentionsXfa(pdfText: string) {
    Includes(pdfText, "/XFA") || Includes(pdfText, "<xdp:xdp") || Includes(pdfText, "xmlns:xfa")
  }

  /** The three XFA markers as the bytes they are written with. */
  const XFA_KEY_BYTES: seq<byte> := [0x2F, 0x58, 0x46, 0x41]
  const XDP_BYTES: seq<byte> := [0x3C, 0x78, 0x64, 0x70, 0x3A, 0x78, 0x64, 0x70]
  const XFA_NAMESPACE_BYTES: seq<byte> := [0x78, 0x6D, 0x6C, 0x6E, 0x73, 0x3A, 0x78, 0x66, 0x61]

  /** The buffer holds the codes of one of the XFA markers. */
  predicate HoldsXfaMarker(buffer: seq<byte>) {
    Includes(buffer, XFA_KEY_BYTES) || Includes(buffer, XDP_BYTES) || Includes(buffer, XFA_NAMESPACE_BYTES)
  }

  lemma Latin1OfXfaKey()
    ensures Latin1(XFA_KEY_BYTES) == "/XFA"
  {
    var k := Latin1(XFA_KEY_BYTES);
    assert k[0] == '/' && k[1] == 'X' && k[2] == 'F' && k[3] == 'A';
  }

  lemma Latin1OfXdp()
    ensures Latin1(XDP_BYTES) == "<xdp:xdp"
  {
    var d := Latin1(XDP_BYTES);
    assert d[0] == '<' && d[1] == 'x' && d[2] == 'd' && d[3] == 'p';
    assert d[4] == ':' && d[5] == 'x' && d[6] == 'd' && d[7] == 'p';
  }

  lemma Latin1OfXfaNamespace()
    ensures Latin1(XFA_NAMESPACE_BYTES) == "xmlns:xfa"
  {
    var n := Latin1(XFA_NAMESPACE_BYTES);
    assert n[0] == 'x' && n[1] == 'm' && n[2] == 'l' && n[3] == 'n' && n[4] == 's';
    assert n[5] == ':' && n[6] == 'x' && n[7] == 'f' && n[8] == 'a';
  }

  /** Searching the latin1 text for the markers is searching the bytes for
      their codes. */
  lemma MentionsXfaIsByteSearch(buffer: seq<byte>)
    ensures MentionsXfa(Latin1(buffer)) <==> HoldsXfaMarker(buffer)
  {
    Latin1OfXfaKey();
    Latin1OfXdp();
    Latin1OfXfaNamespace();
    Latin1Search(buffer, XFA_KEY_BYTES);
    Latin1Search(buffer, XDP_BYTES);
    Latin1Search(buffer, XFA_NAMESPACE_BYTES);
  }

  /** `detectFormType`: the whole buffer (not only a leading window, as for
      encryption) is searched for the XFA markers. `acroFieldCount` is the
      number of fields pdf-lib lists, 0 when it cannot load the document or
      its form. */
  function DetectFormType(buffer: seq<byte>, acroFieldCount: nat): (r: FormType)
    ensures r.hasXFA <==> HoldsXfaMarker(buffer)
    ensures r.hasAcroForm <==> acroFieldCount > 0
    ensures r.isXFAOnly <==> HoldsXfaMarker(buffer) && acroFieldCount == 0
  {
    var hasXFA := MentionsXfa(Latin1(buffer));
    MentionsXfaIsByteSearch(buffer);
    var hasAcroForm := acroFieldCount > 0;
    FormType(hasXFA, hasAcroForm, hasXFA && !hasAcroForm)
  }

  /** Bytes added before or after a buffer never take away its XFA markers:
      an XFA buffer stays XFA wherever it is embedded. */
  lemma {:induction false} EmbeddedKeepsXfa(before: seq<byte>, buffer: seq<byte>, after: seq<byte>, acroFieldCount: nat)
    requires DetectFormType(buffer, acroFieldCount).hasXFA
    ensures DetectFormType(before + buffer + after, acroFieldCount).hasXFA
  {
    if Includes(buffer, XFA_KEY_BYTES) {
      IncludesInside(before, buffer, after, XFA_KEY_BYTES);
    } else if Includes(buffer, XDP_BYTES) {
      IncludesInside(before, buffer, after, XDP_BYTES);
    } else {
      IncludesInside(before, buffer, after, XFA_NAMESPACE_BYTES);
    }
  }

  /** A buffer shorter than every marker is never XFA. */
  lemma ShortBufferIsNotXfa(buffer: seq<byte>, acroFieldCount: nat)
    requires |buffer| < |XFA_KEY_BYTES|
    ensures !DetectFormType(buffer, acroFieldCount).hasXFA
    ensures DetectFormType(buffer, acroFieldCount).isXFAOnly == false
  {
    assert !Includes(buffer, XDP_BYTES);
    assert !Includes(buffer, XFA_NAMESPACE_BYTES);
  }

  // ---------------------------------------------------------------------------
  // Engine selection
  // ---------------------------------------------------------------------------

  datatype Engine = NoEngine | PdfLib | PdftkEngine {
    function Name(): string {
      match this
      case NoEngine => "none"
      case PdfLib => "pdf-lib"
      case PdftkEngine => "pdftk"
    }
  }

  /** What an extractor returns: fields and warnings. */
  datatype Extraction = Extraction(fields: seq<FormField>, warnings: seq<string>)

  const XFA_ONLY_WARNING: string := "XFA-only PDF — using pdftk for extraction"
  const PDFTK_INSTALL_WARNING: string :=
    "pdftk is not installed. Install it for XFA field extraction:\n" +
    "  Windows:  choco install pdftk-java\n" +
    "  macOS:    brew install pdftk-java\n" +
    "  Linux:    apt install pdftk"
  const FALLBACK_WARNING: string := "pdf-lib returned 0 fields, attempting pdftk fallback"
  const NO_FALLBACK_WARNING: string := "pdftk not available for fallback"
  const NO_FIELDS_WARNING: string :=
    "No form fields detected. This PDF may not be fillable. Use read-pdf for text extraction."
  const PDFTK_ERROR_PREFIX: string := "pdftk extraction error: "

  /** `extractFieldsWithPdftk` once pdftk has run: its standard output is
      parsed, and a failure becomes a single warning. */
  method ExtractWithPdftk(run: Result<string, string>) returns (result: Extraction)
    ensures run.Ok? ==> result == Extraction(Pdftk.PdftkFields(run.value), [])
    ensures run.Err? ==> result == Extraction([], [PDFTK_ERROR_PREFIX + run.error])
    ensures result == PdftkExtraction(run)
  {
    if run.Ok? {
      var fields := Pdftk.ParsePdftkDump(run.value);
      result := Extraction(fields, []);
    } else {
      result := Extraction([], [PDFTK_ERROR_PREFIX + run.error]);
    }
  }

  /** What `extractFieldsWithPdftk` returns for a run of pdftk. */
  function PdftkExtraction(run: Result<string, string>): Extraction {
    if run.Ok? then Extraction(Pdftk.PdftkFields(run.value), [])
    else Extraction([], [PDFTK_ERROR_PREFIX + run.error])
  }

  /** The outcome of the engine choice: the engine reported, the fields and
      the warnings in the order they are pushed. */
  datatype Selection = Selection(engine: Engine, fields: seq<FormField>, warnings: seq<string>)

  /** The engine choice stated branch by branch: XFA-only forms use pdftk
      only; AcroForms use pdf-lib, falling back to pdftk when pdf-lib finds
      nothing; anything else has no fields. The engine is the one whose
      fields were kept, and none when there are none. */
  function Selected(formType: FormType, pdftkAvailable: bool, pdfLib: Extraction, pdftk: Extraction): Selection {
    if formType.isXFAOnly then
      var fields := if pdftkAvailable then pdftk.fields else [];
      Selection(if fields == [] then NoEngine else PdftkEngine, fields,
                [XFA_ONLY_WARNING] + (if pdftkAvailable then pdftk.warnings else [PDFTK_INSTALL_WARNING]))
    else if formType.hasAcroForm then
      if |pdfLib.fields| > 0 then Selection(PdfLib, pdfLib.fields, pdfLib.warnings)
      else
        var fields := if pdftkAvailable then pdftk.fields else [];
        Selection(if fields == [] then NoEngine else PdftkEngine, fields,
                  pdfLib.warnings + [FALLBACK_WARNING] + (if pdftkAvailable then pdftk.warnings else [NO_FALLBACK_WARNING]))
    else Selection(NoEngine, [], [NO_FIELDS_WARNING])
  }

  /** The engine choice of `pdfToJson`. `pdfLib` and `pdftk` are what the two
      extractors return for this document; each is consulted only on the
      branches that run it. */
  method SelectEngine(formType: FormType, pdftkAvailable: bool, pdfLib: Extraction, pdftk: Extraction)
    returns (engine: Engine, fields: seq<FormField>, warnings: seq<string>)
    // An XFA-only form goes to pdftk alone.
    ensures formType.isXFAOnly ==>
      && fields == (if pdftkAvailable then pdftk.fields else [])
      && warnings == [XFA_ONLY_WARNING] + (if pdftkAvailable then pdftk.warnings else [PDFTK_INSTALL_WARNING])
      && engine != PdfLib
    // An AcroForm goes to pdf-lib, and to pdftk only when pdf-lib finds nothing.
    ensures !formType.isXFAOnly && formType.hasAcroForm ==>
      && fields == (if |pdfLib.fields| > 0 then pdfLib.fields else if pdftkAvailable then pdftk.fields else [])
      && warnings == pdfLib.warnings + (
        if |pdfLib.fields| > 0 then []
        else [FALLBACK_WARNING] + (if pdftkAvailable then pdftk.warnings else [NO_FALLBACK_WARNING]))
      && (engine == PdfLib <==> |pdfLib.fields| > 0)
    // Anything else has no fields.
    ensures !formType.isXFAOnly && !formType.hasAcroForm ==>
      fields == [] && warnings == [NO_FIELDS_WARNING] && engine == NoEngine
    // The engine is reported only when it produced the fields.
    ensures engine == NoEngine <==> fields == []
    ensures engine == PdftkEngine ==> fields == pdftk.fields
    ensures engine == PdfLib ==> fields == pdfLib.fields
    ensures Selection(engine, fields, warnings) == Selected(formType, pdftkAvailable, pdfLib, pdftk)
  {
    warnings := [];
    engine := NoEngine;
    fields := [];
    if formType.isXFAOnly {
      warnings := warnings + [XFA_ONLY_WARNING];
      if !pdftkAvailable {
        warnings := warnings + [PDFTK_INSTALL_WARNING];
      } else {
        fields := pdftk.fields;
        warnings := warnings + pdftk.warnings;
        if |fields| > 0 {
          engine := PdftkEngine;
        }
      }
    } else if formType.hasAcroForm {
      fields := pdfLib.fields;
      warnings := warnings + pdfLib.warnings;
      if |fields| > 0 {
        engine := PdfLib;
      }
      if |fields| == 0 {
        warnings := warnings + [FALLBACK_WARNING];
        if pdftkAvailable {
          fields := pdftk.fields;
          warnings := warnings + pdftk.warnings;
          if |fields| > 0 {
            engine := PdftkEngine;
          }
        } else {
          warnings := warnings + [NO_FALLBACK_WARNING];
        }
      }
    } else {
      warnings := warnings + [NO_FIELDS_WARNING];
    }
  }

  // ---------------------------------------------------------------------------
  // Structure
  // ---------------------------------------------------------------------------

  /** `StructuredField`: a field with the item and description of its name. */
  datatype StructuredField = StructuredField(
    name: string,
    kind: FieldKind,
    options: Option<seq<string>>,
    tooltip: Option<string>,
    maxLength: Option<int>,
    rect: Option<Rect>,
    item: Option<string>,
    description: Option<string>)

  type Parts = map<string, seq<StructuredField>>
  type Pages = map<string, Parts>

  const UNKNOWN: string := "_unknown"

  /** `parsed.page || "_unknown"`. */
  function PageKey(f: FormField): string {
    var page := ParseFieldName(f.name).page;
    if page.Some? && page.value != "" then page.value else UNKNOWN
  }

  /** `parsed.part || "_unknown"`. */
  function PartKey(f: FormField): string {
    var part := ParseFieldName(f.name).part;
    if part.Some? && part.value != "" then part.value else UNKNOWN
  }

  /** A value JavaScript treats as true: present and not `""`. */
  predicate TruthyString(x: Option<string>) {
    x.Some? && x.value != ""
  }

  /** The structured copy of one field: name, type, options (an array is
      always truthy) and rectangle as they are; tooltip, maximum length, item
      and description only when truthy. */
  function Structured(f: FormField): StructuredField {
    var parsed := ParseFieldName(f.name);
    StructuredField(
      f.name, f.kind, f.options,
      if TruthyString(f.tooltip) then f.tooltip else None,
      if f.maxLength.Some? && f.maxLength.value != 0 then f.maxLength else None,
      f.rect,
      if TruthyString(parsed.item) then parsed.item else None,
      if TruthyString(parsed.description) then parsed.description else None)
  }

  /** Falsy attributes are dropped: an empty tooltip and a maximum length of 0
      do not appear; truthy ones are copied unchanged, and the item and
      description of the name (which are never empty) always come through. */
  lemma StructuredCopiesTruthy(f: FormField)
    ensures var s := Structured(f);
      && s.name == f.name && s.kind == f.kind && s.options == f.options && s.rect == f.rect
      && (s.tooltip.Some? <==> f.tooltip.Some? && f.tooltip.value != "")
      && (s.tooltip.Some? ==> s.tooltip == f.tooltip)
      && (s.maxLength.Some? <==> f.maxLength.Some? && f.maxLength.value != 0)
      && (s.maxLength.Some? ==> s.maxLength == f.maxLength)
      && s.item == ParseFieldName(f.name).item
      && s.description == ParseFieldName(f.name).description
  {
    var parsed := ParseFieldName(f.name);
    ItemIsLineNumber(parsed.descriptor);
    DescriptionAfterFirstUnderscore(parsed.descriptor);
  }

  /** A field together with the page and part it is filed under. */
  datatype Entry = Entry(page: string, part: string, field: StructuredField)

  /** What the loop body computes for one field. */
  function EntryOf(f: FormField): Entry {
    Entry(PageKey(f), PartKey(f), Structured(f))
  }

  /** The entries of the fields, one per field, in order. */
  function Entries(fields: seq<FormField>): (r: seq<Entry>)
    ensures |r| == |fields|
    ensures forall i | 0 <= i < |fields| :: r[i] == EntryOf(fields[i])
  {
    seq(|fields|, i requires 0 <= i < |fields| => EntryOf(fields[i]))
  }

  /** The group under `page` and `part`, or `[]` when the tree has none. */
  function Group(pages: Pages, page: string, part: string): seq<StructuredField> {
    if page in pages && part in pages[page] then pages[page][part] else []
  }

  /** One iteration of the loop: append the field to its group, creating the
      page and the part when they are new. */
  function Place(pages: Pages, e: Entry): Pages {
    var parts := if e.page in pages then pages[e.page] else map[];
    pages[e.page := parts[e.part := Group(pages, e.page, e.part) + [e.field]]]
  }

  function Grouped(entries: seq<Entry>): Pages {
    if entries == [] then map[] else Place(Grouped(entries[..|entries| - 1]), entries[|entries| - 1])
  }

  /** The tree `buildStructure` returns for a field list. */
  function StructureOf(fields: seq<FormField>): Pages {
    Grouped(Entries(fields))
  }

  lemma GroupedStep(entries: seq<Entry>, i: nat)
    requires i < |entries|
    ensures Grouped(entries[..i + 1]) == Place(Grouped(entries[..i]), entries[i])
  {
    assert entries[..i + 1][..i] == entries[..i];
  }

  /** The three updates of the loop body amount to one `Place`. */
  lemma PlaceInSteps(before: Pages, p1: Pages, p2: Pages, after: Pages, e: Entry)
    requires p1 == if e.page in before then before else before[e.page := map[]]
    requires e.page in p1 && p2 == if e.part in p1[e.page] then p1 else p1[e.page := p1[e.page][e.part := []]]
    requires e.page in p2 && e.part in p2[e.page]
    requires after == p2[e.page := p2[e.page][e.part := p2[e.page][e.part] + [e.field]]]
    ensures after == Place(before, e)
  {
    var parts := if e.page in before then before[e.page] else map[];
    assert p1[e.page] == parts;
    assert p2[e.page][e.part] == Group(before, e.page, e.part);
    assert p2[e.page][e.part := Group(before, e.page, e.part) + [e.field]] == parts[e.part := Group(before, e.page, e.part) + [e.field]];
  }

  /** The dictionary updates of the loop body: create the page and the part
      when they are new, then push the field. */
  method FileEntry(pages: Pages, e: Entry) returns (after: Pages)
    ensures after == Place(pages, e)
  {
    after := pages;
    if e.page !in after {
      after := after[e.page := map[]];
    }
    ghost var withPage := after;
    if e.part !in after[e.page] {
      after := after[e.page := after[e.page][e.part := []]];
    }
    ghost var withPart := after;
    after := after[e.page := after[e.page][e.part := after[e.page][e.part] + [e.field]]];
    PlaceInSteps(pages, withPage, withPart, after, e);
  }

  /** `buildStructure`. */
  method BuildStructure(fields: seq<FormField>) returns (pages: Pages)
    ensures pages == StructureOf(fields)
  {
    ghost var entries := Entries(fields);
    pages := map[];
    for i := 0 to |fields|
      invariant pages == Grouped(entries[..i])
    {
      GroupedStep(entries, i);
      var e := EntryOf(fields[i]);
      pages := FileEntry(pages, e);
    }
    assert entries[..|fields|] == entries;
  }

  /** The fields filed under `page` and `part`, in input order. */
  function EntriesIn(entries: seq<Entry>, page: string, part: string): seq<StructuredField> {
    if entries == [] then []
    else
      var e := entries[|entries| - 1];
      EntriesIn(entries[..|entries| - 1], page, part) + if e.page == page && e.part == part then [e.field] else []
  }

  lemma {:induction false} GroupsOfEntries(entries: seq<Entry>, page: string, part: string)
    ensures Group(Grouped(entries), page, part) == EntriesIn(entries, page, part)
  {
    if entries != [] {
      GroupsOfEntries(entries[..|entries| - 1], page, part);
    }
  }

  /** Every group holds exactly the fields whose name gives its page and
      part, structured, in input order; so every field is placed once, under
      its own keys. */
  lemma GroupsAreFilters(fields: seq<FormField>, page: string, part: string)
    ensures Group(StructureOf(fields), page, part) == EntriesIn(Entries(fields), page, part)
  {
    GroupsOfEntries(Entries(fields), page, part);
  }

  lemma {:induction false} KeysOfEntries(entries: seq<Entry>)
    ensures forall page :: page in Grouped(entries) <==> exists i | 0 <= i < |entries| :: entries[i].page == page
    ensures forall page, part | page in Grouped(entries) ::
      part in Grouped(entries)[page] <==>
      exists i | 0 <= i < |entries| :: entries[i].page == page && entries[i].part == part
  {
    if entries != [] {
      var init := entries[..|entries| - 1];
      KeysOfEntries(init);
      assert forall i | 0 <= i < |init| :: init[i] == entries[i];
    }
  }

  /** A page or part key exists only when some field is filed under it. */
  lemma KeysComeFromFields(fields: seq<FormField>)
    ensures forall page :: page in StructureOf(fields) <==> exists i | 0 <= i < |fields| :: EntryOf(fields[i]).page == page
    ensures forall page, part | page in StructureOf(fields) ::
      part in StructureOf(fields)[page] <==>
      exists i | 0 <= i < |fields| :: EntryOf(fields[i]).page == page && EntryOf(fields[i]).part == part
  {
    var es := Entries(fields);
    KeysOfEntries(es);
    forall page
      ensures page in StructureOf(fields) <==> exists i | 0 <= i < |fields| :: EntryOf(fields[i]).page == page
    {
      if page in StructureOf(fields) {
        var i :| 0 <= i < |es| && es[i].page == page;
        assert EntryOf(fields[i]) == es[i];
      }
    }
    forall page, part | page in StructureOf(fields)
      ensures part in StructureOf(fields)[page] <==>
        exists i | 0 <= i < |fields| :: EntryOf(fields[i]).page == page && EntryOf(fields[i]).part == part
    {
      if part in StructureOf(fields)[page] {
        var i :| 0 <= i < |es| && es[i].page == page && es[i].part == part;
        assert EntryOf(fields[i]) == es[i];
      }
    }
  }

  // Counting the fields in the tree.

  /** Some key of a non-empty map, the same one every time. */
  ghost function Pick<K, V>(m: map<K, V>): (k: K)
    requires |m| != 0
    ensures k in m
  {
    var k :| k in m; k
  }

  /** The total weight of a map's values. */
  ghost function MapSum<K, V>(m: map<K, V>, w: V -> nat): nat
    decreases |m|
  {
    if |m| == 0 then 0 else w(m[Pick(m)]) + MapSum(m - {Pick(m)}, w)
  }

  /** The sum does not depend on which key is taken first. */
  lemma {:induction false} MapSumRemove<K, V>(m: map<K, V>, w: V -> nat, k: K)
    requires k in m
    ensures MapSum(m, w) == w(m[k]) + MapSum(m - {k}, w)
    decreases |m|
  {
    var j := Pick(m);
    if j != k {
      MapSumRemove(m - {j}, w, k);
      MapSumRemove(m - {k}, w, j);
      assert m - {j} - {k} == m - {k} - {j};
    }
  }

  lemma MapSumUpdate<K, V>(m: map<K, V>, w: V -> nat, k: K, v: V)
    ensures MapSum(m[k := v], w) + (if k in m then w(m[k]) else 0) == MapSum(m, w) + w(v)
  {
    MapSumRemove(m[k := v], w, k);
    UpdatedThenRemoved(m, k, v);
    if k in m {
      MapSumRemove(m, w, k);
    } else {
      AbsentRemoved(m, k);
    }
  }

  lemma UpdatedThenRemoved<K, V>(m: map<K, V>, k: K, v: V)
    ensures m[k := v] - {k} == m - {k}
  {
  }

  lemma AbsentRemoved<K, V>(m: map<K, V>, k: K)
    requires k !in m
    ensures m - {k} == m
  {
  }

  ghost function GroupSize(group: seq<StructuredField>): nat {
    |group|
  }

  ghost function PartsCount(parts: Parts): nat {
    MapSum(parts, GroupSize)
  }

  /** The number of fields in the whole tree. */
  ghost function FieldCount(pages: Pages): nat {
    MapSum(pages, PartsCount)
  }

  lemma PlaceAddsOne(pages: Pages, e: Entry)
    ensures FieldCount(Place(pages, e)) == FieldCount(pages) + 1
  {
    var parts := if e.page in pages then pages[e.page] else map[];
    var group := Group(pages, e.page, e.part);
    MapSumUpdate(parts, GroupSize, e.part, group + [e.field]);
    assert e.part in parts ==> parts[e.part] == group;
    MapSumUpdate(pages, PartsCount, e.page, parts[e.part := group + [e.field]]);
    if e.page !in pages {
      assert parts == map[];
    }
  }

  lemma {:induction false} GroupedCountsAllEntries(entries: seq<Entry>)
    ensures FieldCount(Grouped(entries)) == |entries|
  {
    if entries != [] {
      GroupedCountsAllEntries(entries[..|entries| - 1]);
      PlaceAddsOne(Grouped(entries[..|entries| - 1]), entries[|entries| - 1]);
    }
  }

  /** The tree holds as many fields as the input list. */
  lemma StructureCountsAllFields(fields: seq<FormField>)
    ensures FieldCount(StructureOf(fields)) == |fields|
  {
    GroupedCountsAllEntries(Entries(fields));
  }

  // ---------------------------------------------------------------------------
  // Output
  // ---------------------------------------------------------------------------

  /** The JSON object `pdfToJson` serialises. `pages` is `None` when the key is
      left out, `decrypted` false when it is, and `warnings` `None` when it is. */
  datatype FormOutput = FormOutput(
    pages: Option<nat>,
    encrypted: bool,
    decrypted: bool,
    engine: Engine,
    hasXFA: bool,
    hasAcroForm: bool,
    fields: seq<FormField>,
    fieldCount: nat,
    structure: Pages,
    warnings: Option<seq<string>>)

  /** What the outside world reports for one run. `decryptedBuffer` is what
      qpdf would write, the counts and extractions are about the buffer the
      pipeline ends up reading. */
  datatype Environment = Environment(
    qpdfAvailable: bool,
    decryptedBuffer: seq<byte>,
    acroFieldCount: nat,
    pageCount: Option<nat>,
    pdftkAvailable: bool,
    pdfLib: Extraction,
    pdftkRun: Result<string, string>)

  /** `pdfToJson` from the file contents to the output record. */
  method PdfToJson(buffer: seq<byte>, skipDecryption: bool, env: Environment)
    returns (r: Result<FormOutput, DecryptError>)
    ensures r.Err? <==> IsPdfEncrypted(buffer) && !skipDecryption && !env.qpdfAvailable
    ensures r.Err? ==> r.error.message == QPDF_INSTALL_MSG
    ensures r.Ok? ==>
      var out := r.value;
      && out.encrypted == IsPdfEncrypted(buffer)
      && (out.decrypted <==> out.encrypted && !skipDecryption)
      && out.pages == env.pageCount
      && out.fieldCount == |out.fields|
      && (out.engine == NoEngine <==> out.fields == [])
      && out.structure == StructureOf(out.fields)
      && (out.warnings.Some? ==> out.warnings.value != [])
      && (out.hasXFA <==> MentionsXfa(Latin1(if out.decrypted then env.decryptedBuffer else buffer)))
      && (out.hasAcroForm <==> env.acroFieldCount > 0)
      && var current := if out.decrypted then env.decryptedBuffer else buffer;
         var selection := Selected(DetectFormType(current, env.acroFieldCount), env.pdftkAvailable,
                                   env.pdfLib, PdftkExtraction(env.pdftkRun));
         && out.engine == selection.engine && out.fields == selection.fields
         && out.warnings == (if |selection.warnings| > 0 then Some(selection.warnings) else None)
  {
    var encrypted := IsPdfEncrypted(buffer);
    var step := DecryptionStep(encrypted, skipDecryption, env.qpdfAvailable);
    if step.Err? {
      return Err(step.error);
    }
    var decrypted := step.value;
    var current := if decrypted then env.decryptedBuffer else buffer;
    var formType := DetectFormType(current, env.acroFieldCount);
    var pdftk := ExtractWithPdftk(env.pdftkRun);
    var engine, fields, warnings := SelectEngine(formType, env.pdftkAvailable, env.pdfLib, pdftk);
    var structure := BuildStructure(fields);
    r := Ok(FormOutput(
      env.pageCount, encrypted, decrypted, engine, formType.hasXFA, formType.hasAcroForm,
      fields, |fields|, structure, if |warnings| > 0 then Some(warnings) else None));
  }

  // ---------------------------------------------------------------------------
  // Command line
  // ---------------------------------------------------------------------------

  /** `PdfToJsonOptions`: `pretty` is `None` when never given. */
  datatype Options = Options(output: Option<string>, pretty: Option<bool>, skipDecryption: bool)

  /** What the argument loop has collected so far. */
  datatype Scan = Scan(pdfFile: Option<string>, options: Options)

  const NO_FILE_MESSAGE: string := "Error: No PDF file specified. Use --help for usage."

  /** The loop over the arguments from index `i` on. A value option consumes
      the next argument; the first argument that is not an option, does not
      start with `--` and arrives while no non-empty file is set is the file. */
  function ScanFrom(args: seq<string>, i: nat, acc: Scan): Scan
    decreases |args| - i
  {
    if i >= |args| then acc
    else match args[i]
      case "--output" => ScanFrom(args, i + 2, acc.(options := acc.options.(output := NextArg(args, i))))
      case "--pretty" => ScanFrom(args, i + 1, acc.(options := acc.options.(pretty := Some(true))))
      case "--no-pretty" => ScanFrom(args, i + 1, acc.(options := acc.options.(pretty := Some(false))))
      case "--skip-decryption" => ScanFrom(args, i + 1, acc.(options := acc.options.(skipDecryption := true)))
      case _ =>
        ScanFrom(args, i + 1, if Falsy(acc.pdfFile) && !IsLongFlag(args[i]) then acc.(pdfFile := Some(args[i])) else acc)
  }

  const INITIAL_SCAN: Scan := Scan(None, Options(None, None, false))

  /** The command line as a whole: help first, then the scan, then the check
      for a file. */
  function CommandOf(args: seq<string>): Command<Options> {
    if "--help" in args || "-h" in args || |args| == 0 then ShowHelp
    else
      var scan := ScanFrom(args, 0, INITIAL_SCAN);
      if Falsy(scan.pdfFile) then Fail(NO_FILE_MESSAGE) else Run(scan.pdfFile.value, scan.options)
  }

  /** The command-line front end, with its index-advancing loop. */
  method ParseArgs(args: seq<string>) returns (cmd: Command<Options>)
    ensures cmd == CommandOf(args)
  {
    if "--help" in args || "-h" in args || |args| == 0 {
      return ShowHelp;
    }
    var pdfFile: Option<string> := None;
    var opts := Options(None, None, false);
    var i := 0;
    while i < |args|
      invariant ScanFrom(args, i, Scan(pdfFile, opts)) == ScanFrom(args, 0, INITIAL_SCAN)
      decreases |args| - i
    {
      var arg := args[i];
      if arg == "--output" {
        opts := opts.(output := NextArg(args, i));
        i := i + 1;
      } else if arg == "--pretty" {
        opts := opts.(pretty := Some(true));
      } else if arg == "--no-pretty" {
        opts := opts.(pretty := Some(false));
      } else if arg == "--skip-decryption" {
        opts := opts.(skipDecryption := true);
      } else if Falsy(pdfFile) && !IsLongFlag(arg) {
        pdfFile := Some(arg);
      }
      i := i + 1;
    }
    if Falsy(pdfFile) {
      return Fail(NO_FILE_MESSAGE);
    }
    return Run(pdfFile.value, opts);
  }

  /** Once a non-empty file is set, later arguments never replace it. */
  lemma {:induction false} FileIsKept(args: seq<string>, i: nat, acc: Scan)
    requires !Falsy(acc.pdfFile)
    ensures ScanFrom(args, i, acc).pdfFile == acc.pdfFile
    decreases |args| - i
  {
    if i < |args| {
      match args[i]
      case "--output" => FileIsKept(args, i + 2, acc.(options := acc.options.(output := NextArg(args, i))));
      case "--pretty" => FileIsKept(args, i + 1, acc.(options := acc.options.(pretty := Some(true))));
      case "--no-pretty" => FileIsKept(args, i + 1, acc.(options := acc.options.(pretty := Some(false))));
      case "--skip-decryption" => FileIsKept(args, i + 1, acc.(options := acc.options.(skipDecryption := true)));
      case _ => FileIsKept(args, i + 1, acc);
    }
  }

  /** A file that is found is one of the arguments, non-empty and not a `--` flag. */
  lemma {:induction false} FileIsAnArgument(args: seq<string>, i: nat, acc: Scan)
    requires !Falsy(ScanFrom(args, i, acc).pdfFile)
    requires acc.pdfFile.Some? ==> acc.pdfFile.value in args && !IsLongFlag(acc.pdfFile.value)
    ensures var f := ScanFrom(args, i, acc).pdfFile.value; f in args && !IsLongFlag(f)
    decreases |args| - i
  {
    if i < |args| {
      match args[i]
      case "--output" => FileIsAnArgument(args, i + 2, acc.(options := acc.options.(output := NextArg(args, i))));
      case "--pretty" => FileIsAnArgument(args, i + 1, acc.(options := acc.options.(pretty := Some(true))));
      case "--no-pretty" => FileIsAnArgument(args, i + 1, acc.(options := acc.options.(pretty := Some(false))));
      case "--skip-decryption" => FileIsAnArgument(args, i + 1, acc.(options := acc.options.(skipDecryption := true)));
      case _ =>
        FileIsAnArgument(args, i + 1,
          if Falsy(acc.pdfFile) && !IsLongFlag(args[i]) then acc.(pdfFile := Some(args[i])) else acc);
    }
  }

  /** A run always names a non-empty argument that is not a `--` flag, and a
      first argument that is a plain non-empty word is that file. */
  lemma RunNamesAnArgument(args: seq<string>)
    ensures CommandOf(args).Run? ==>
      var f := CommandOf(args).file; f != "" && f in args && !IsLongFlag(f)
    ensures CommandOf(args).Run? && args[0] != "" && !IsLongFlag(args[0]) ==> CommandOf(args).file == args[0]
  {
    if CommandOf(args).Run? {
      FileIsAnArgument(args, 0, INITIAL_SCAN);
      if args[0] != "" && !IsLongFlag(args[0]) {
        FileIsKept(args, 1, INITIAL_SCAN.(pdfFile := Some(args[0])));
      }
    }
  }

  /** Options only change through their own flags: without `--output` the
      output stays unset (standard output), without `--no-pretty`
      pretty-printing is never switched off, and without `--skip-decryption`
      decryption is not skipped. */
  lemma {:induction false} OptionsComeFromFlags(args: seq<string>, i: nat, acc: Scan)
    ensures (forall j | i <= j < |args| :: args[j] != "--output") ==>
      ScanFrom(args, i, acc).options.output == acc.options.output
    ensures (forall j | i <= j < |args| :: args[j] != "--no-pretty") && acc.options.pretty != Some(false) ==>
      ScanFrom(args, i, acc).options.pretty != Some(false)
    ensures (forall j | i <= j < |args| :: args[j] != "--skip-decryption") ==>
      ScanFrom(args, i, acc).options.skipDecryption == acc.options.skipDecryption
    decreases |args| - i
  {
    if i < |args| {
      match args[i]
      case "--output" => OptionsComeFromFlags(args, i + 2, acc.(options := acc.options.(output := NextArg(args, i))));
      case "--pretty" => OptionsComeFromFlags(args, i + 1, acc.(options := acc.options.(pretty := Some(true))));
      case "--no-pretty" => OptionsComeFromFlags(args, i + 1, acc.(options := acc.options.(pretty := Some(false))));
      case "--skip-decryption" => OptionsComeFromFlags(args, i + 1, acc.(options := acc.options.(skipDecryption := true)));
      case _ =>
        OptionsComeFromFlags(args, i + 1,
          if Falsy(acc.pdfFile) && !IsLongFlag(args[i]) then acc.(pdfFile := Some(args[i])) else acc);
    }
  }
}
