/** The option handling of `resize-image.ts`: the `WxH` and `WxH+X+Y`
    parsers, the order of the image operations handed to sharp, the output
    format and the default output file name, and the command line. sharp
    itself is outside the model: the pipeline is the list of operations it
    is asked to apply. */
module ResizeImage {
  import opened Results
  import opened JsText
  import opened PosixPath
  import opened Cli

  // ---------------------------------------------------------------------------
  // Option strings
  // ---------------------------------------------------------------------------

  datatype Dimensions = Dimensions(width: nat, height: nat)
  datatype Offset = Offset(left: nat, top: nat)

  /** A crop region; `left` and `top` come as a pair or not at all. */
  datatype CropSpec = CropSpec(width: nat, height: nat, offset: Option<Offset>)

  /** `\d+`. */
  predicate IsNumeral(s: string) {
    s != [] && AllDigits(s)
  }

  function DimensionsError(str: string): string {
    "Invalid dimensions: \"" + str + "\" (expected WxH, e.g. 400x300)"
  }

  function CropError(str: string): string {
    "Invalid crop spec: \"" + str + "\" (expected WxH or WxH+X+Y, e.g. 400x300 or 400x300+10+20)"
  }

  /** `parseDimensions`: `/^(\d+)x(\d+)$/`. Digits hold no `x`, so a match is
      a split at the only `x` into two digit runs. */
  function ParseDimensions(str: string): Result<Dimensions, string> {
    var pieces := Split(str, "x");
    if |pieces| == 2 && IsNumeral(pieces[0]) && IsNumeral(pieces[1]) then
      Ok(Dimensions(DigitsValue(pieces[0]), DigitsValue(pieces[1])))
    else Err(DimensionsError(str))
  }

  /** `parseCropSpec`: `/^(\d+)x(\d+)(?:\+(\d+)\+(\d+))?$/`, as a split at
      the only `x` and then at the `+` signs after it. */
  function ParseCropSpec(str: string): Result<CropSpec, string> {
    var pieces := Split(str, "x");
    if |pieces| != 2 || !IsNumeral(pieces[0]) then Err(CropError(str))
    else CropAfterWidth(str, DigitsValue(pieces[0]), Split(pieces[1], "+"))
  }

  /** The part after the `x`, split at the `+` signs: a height alone, or a
      height and the two offsets. */
  function CropAfterWidth(str: string, width: nat, rest: seq<string>): Result<CropSpec, string> {
    if |rest| == 1 && IsNumeral(rest[0]) then
      Ok(CropSpec(width, DigitsValue(rest[0]), None))
    else if |rest| == 3 && IsNumeral(rest[0]) && IsNumeral(rest[1]) && IsNumeral(rest[2]) then
      Ok(CropSpec(width, DigitsValue(rest[0]), Some(Offset(DigitsValue(rest[1]), DigitsValue(rest[2])))))
    else Err(CropError(str))
  }

  /** Whatever is accepted is two digit runs around one `x`, read as numbers. */
  lemma DimensionsAreTwoNumerals(str: string)
    requires ParseDimensions(str).Ok?
    ensures exists i | 0 <= i < |str| ::
      && str[i] == 'x' && IsNumeral(str[..i]) && IsNumeral(str[i + 1..])
      && ParseDimensions(str).value == Dimensions(DigitsValue(str[..i]), DigitsValue(str[i + 1..]))
  {
    var pieces := Split(str, "x");
    var i := |pieces[0]|;
    assert str == pieces[0] + "x" + pieces[1];
    assert str[..i] == pieces[0] && str[i + 1..] == pieces[1];
  }

  /** Every pair of digit runs around an `x` is accepted. */
  lemma NumeralsAreDimensions(w: string, h: string)
    requires IsNumeral(w) && IsNumeral(h)
    ensures ParseDimensions(w + "x" + h) == Ok(Dimensions(DigitsValue(w), DigitsValue(h)))
  {
    DigitsExclude(w, "x");
    DigitsExclude(h, "x");
    SplitPair(w, h, "x");
  }

  /** Writing dimensions out and parsing them gives them back. */
  lemma DimensionsRoundTrip(d: Dimensions)
    ensures ParseDimensions(NatToString(d.width) + "x" + NatToString(d.height)) == Ok(d)
  {
    NumeralsAreDimensions(NatToString(d.width), NatToString(d.height));
  }

  /** A crop spec without an offset is exactly a dimension string. */
  lemma CropWithoutOffsetIsDimensions(str: string)
    ensures ParseDimensions(str).Ok? <==> ParseCropSpec(str).Ok? && ParseCropSpec(str).value.offset.None?
    ensures ParseDimensions(str).Ok? ==>
      ParseCropSpec(str).value == CropSpec(ParseDimensions(str).value.width, ParseDimensions(str).value.height, None)
  {
    var pieces := Split(str, "x");
    if |pieces| == 2 && IsNumeral(pieces[0]) {
      var rest := Split(pieces[1], "+");
      if IsNumeral(pieces[1]) {
        DigitsExclude(pieces[1], "+");
      }
      if |rest| == 1 {
        assert rest[0] == pieces[1];
      }
    }
  }

  /** The text of a crop spec: `WxH` or `WxH+X+Y`. */
  function CropText(spec: CropSpec): string {
    var size := NatToString(spec.width) + "x" + NatToString(spec.height);
    match spec.offset
    case None => size
    case Some(o) => size + "+" + NatToString(o.left) + "+" + NatToString(o.top)
  }

  /** Writing a crop spec out and parsing it gives it back, offset included. */
  lemma CropSpecRoundTrip(spec: CropSpec)
    ensures ParseCropSpec(CropText(spec)) == Ok(spec)
  {
    var w, h := NatToString(spec.width), NatToString(spec.height);
    if spec.offset.None? {
      NumeralsAreDimensions(w, h);
      CropWithoutOffsetIsDimensions(CropText(spec));
    } else {
      var l, t := NatToString(spec.offset.value.left), NatToString(spec.offset.value.top);
      NumeralsAreCropSpec(w, h, l, t);
    }
  }

  /** The text `WxH+X+Y` of four pieces. */
  function OffsetSpecText(w: string, h: string, l: string, t: string): string {
    w + "x" + h + "+" + l + "+" + t
  }

  /** Any four digit runs written `WxH+X+Y` are accepted, with their values. */
  lemma NumeralsAreCropSpec(w: string, h: string, l: string, t: string)
    requires IsNumeral(w) && IsNumeral(h) && IsNumeral(l) && IsNumeral(t)
    ensures ParseCropSpec(OffsetSpecText(w, h, l, t)) ==
      Ok(CropSpec(DigitsValue(w), DigitsValue(h), Some(Offset(DigitsValue(l), DigitsValue(t)))))
  {
    var tail := h + "+" + l + "+" + t;
    OffsetTailSpec(w, tail, h, l, t);
    OffsetText(w, h, l, t);
  }

  /** The parse of `W` + `x` + `H+X+Y`, with the tail kept whole. */
  lemma OffsetTailSpec(w: string, tail: string, h: string, l: string, t: string)
    requires IsNumeral(w) && IsNumeral(h) && IsNumeral(l) && IsNumeral(t)
    requires tail == h + "+" + l + "+" + t
    ensures ParseCropSpec(w + "x" + tail) ==
      Ok(CropSpec(DigitsValue(w), DigitsValue(h), Some(Offset(DigitsValue(l), DigitsValue(t)))))
  {
    OffsetTail(h, l, t);
    DigitsExclude(w, "x");
    SplitPair(w, tail, "x");
    SplitTwice(w + "x" + tail, w, tail, [h, l, t]);
    OffsetBranch(w + "x" + tail, DigitsValue(w), h, l, t);
  }

  /** Once both splits are known, the parse is that of the pieces after the `x`. */
  lemma SplitTwice(str: string, w: string, tail: string, rest: seq<string>)
    requires IsNumeral(w)
    requires Split(str, "x") == [w, tail] && Split(tail, "+") == rest
    ensures ParseCropSpec(str) == CropAfterWidth(str, DigitsValue(w), rest)
  {
    WidthThenRest(str);
  }

  /** With a numeral before the only `x`, the parse is that of the rest. */
  lemma WidthThenRest(str: string)
    ensures var pieces := Split(str, "x");
      |pieces| == 2 && IsNumeral(pieces[0]) ==>
        ParseCropSpec(str) == CropAfterWidth(str, DigitsValue(pieces[0]), Split(pieces[1], "+"))
  {
  }

  /** Three digit runs after the `x` are the height and the offsets. */
  lemma OffsetBranch(str: string, width: nat, h: string, l: string, t: string)
    requires IsNumeral(h) && IsNumeral(l) && IsNumeral(t)
    ensures CropAfterWidth(str, width, [h, l, t]) ==
      Ok(CropSpec(width, DigitsValue(h), Some(Offset(DigitsValue(l), DigitsValue(t)))))
  {
  }

  /** `WxH+X+Y` is the width, the `x` and the `H+X+Y` tail. */
  lemma OffsetText(w: string, h: string, l: string, t: string)
    ensures OffsetSpecText(w, h, l, t) == w + "x" + (h + "+" + l + "+" + t)
  {
  }

  /** Whatever is accepted with an offset is four digit runs written
      `WxH+X+Y`, read as numbers. */
  lemma CropSpecIsNumerals(str: string)
    requires ParseCropSpec(str).Ok? && ParseCropSpec(str).value.offset.Some?
    ensures exists w, h, l, t ::
      && str == OffsetSpecText(w, h, l, t)
      && IsNumeral(w) && IsNumeral(h) && IsNumeral(l) && IsNumeral(t)
      && ParseCropSpec(str).value ==
        CropSpec(DigitsValue(w), DigitsValue(h), Some(Offset(DigitsValue(l), DigitsValue(t))))
  {
    OffsetPieces(str);
    var pieces := Split(str, "x");
    var rest := Split(pieces[1], "+");
    var w, h, l, t := pieces[0], rest[0], rest[1], rest[2];
    assert str == OffsetSpecText(w, h, l, t);
  }

  /** The pieces of an accepted offset spec: the width before the `x` and the
      three runs after it, split at the `+` signs. */
  lemma OffsetPieces(str: string)
    requires ParseCropSpec(str).Ok? && ParseCropSpec(str).value.offset.Some?
    ensures var pieces := Split(str, "x");
      && |pieces| == 2 && |Split(pieces[1], "+")| == 3
      && var w, rest := pieces[0], Split(pieces[1], "+");
      && IsNumeral(w) && IsNumeral(rest[0]) && IsNumeral(rest[1]) && IsNumeral(rest[2])
      && str == OffsetSpecText(w, rest[0], rest[1], rest[2])
      && ParseCropSpec(str).value ==
        CropSpec(DigitsValue(w), DigitsValue(rest[0]), Some(Offset(DigitsValue(rest[1]), DigitsValue(rest[2]))))
  {
    var pieces := Split(str, "x");
    var rest := Split(pieces[1], "+");
    assert |pieces| == 2 && |rest| == 3;
    var w, h, l, t := pieces[0], rest[0], rest[1], rest[2];
    assert str == w + "x" + pieces[1];
    assert Join(rest[2..], "+") == t;
    assert Join(rest[1..], "+") == l + "+" + t;
    assert pieces[1] == h + "+" + l + "+" + t;
    OffsetText(w, h, l, t);
  }

  /** `H+X+Y` splits into its three numerals at the `+` signs and has no `x`. */
  lemma OffsetTail(h: string, l: string, t: string)
    requires IsNumeral(h) && IsNumeral(l) && IsNumeral(t)
    ensures Split(h + "+" + l + "+" + t, "+") == [h, l, t]
    ensures !Includes(h + "+" + l + "+" + t, "x")
  {
    DigitsExclude(h, "+");
    DigitsExclude(l, "+");
    DigitsExclude(t, "+");
    SplitTriple(h, l, t, "+");
    DigitsExclude(h, "x");
    DigitsExclude(l, "x");
    DigitsExclude(t, "x");
    assert !Includes("+", "x");
    ConcatExcludes(h, "+", "x");
    ConcatExcludes(h + "+", l, "x");
    ConcatExcludes(h + "+" + l, "+", "x");
    ConcatExcludes(h + "+" + l + "+", t, "x");
  }

  // ---------------------------------------------------------------------------
  // The pipeline
  // ---------------------------------------------------------------------------

  /** The sharp calls a pipeline is built from. A `Resize` with a position is
      the centre crop; one without is the resize step. */
  datatype Op =
    | Extract(left: nat, top: nat, width: nat, height: nat)
    | Resize(width: nat, height: nat, fit: string, position: Option<string>, withoutEnlargement: bool)
    | Png(compressionLevel: nat)
    | Jpeg(quality: nat)
    | Webp(quality: nat)

  /** `ResizeImageOptions`; `quality` is `None` when absent or not a number. */
  datatype Options = Options(
    resize: Option<string>, crop: Option<string>, fit: Option<string>, gravity: Option<string>,
    format: Option<string>, quality: Option<nat>, output: Option<string>)

  /** What the call hands to sharp: the operations, the format and the file to write. */
  datatype Plan = Plan(ops: seq<Op>, format: string, outputPath: string)

  /** `x || d` for an optional string. */
  function OrDefault(x: Option<string>, d: string): string {
    if Falsy(x) then d else x.value
  }

  /** `options.quality || 85`: absent, NaN and 0 all give 85. */
  function QualityOrDefault(q: Option<nat>): nat {
    if q.None? || q.value == 0 then 85 else q.value
  }

  /** `path.extname(p).toLowerCase().replace(".", "")`: the extension starts
      with its dot, so the first `.` is that one. */
  function InputFormat(p: string): string {
    var e := ToLower(Extname(p));
    if e == [] then [] else e[1..]
  }

  /** The format option, else the input's extension, else `png`; `jpg` is `jpeg`. */
  function ResolveFormat(format: Option<string>, inputPath: string): string {
    var f := if !Falsy(format) then format.value else if InputFormat(inputPath) != [] then InputFormat(inputPath) else "png";
    if f == "jpg" then "jpeg" else f
  }

  /** A region extract when the spec has an offset, else a cover resize
      around the gravity. */
  function CropOp(spec: CropSpec, gravity: Option<string>): Op {
    match spec.offset
    case Some(o) => Extract(o.left, o.top, spec.width, spec.height)
    case None => Resize(spec.width, spec.height, "cover", Some(OrDefault(gravity, "centre")), false)
  }

  /** The resize step: fit defaults to `inside`, never enlarging. */
  function ResizeOp(d: Dimensions, fit: Option<string>): Op {
    Resize(d.width, d.height, OrDefault(fit, "inside"), None, true)
  }

  /** The encoder for a format; other formats get none. */
  function EncodeOps(format: string, quality: Option<nat>): seq<Op> {
    if format == "png" then [Png(9)]
    else if format == "jpeg" then [Jpeg(QualityOrDefault(quality))]
    else if format == "webp" then [Webp(QualityOrDefault(quality))]
    else []
  }

  function FileExtension(format: string): string {
    if format == "jpeg" then "jpg" else format
  }

  /** `output/images`, which the script resolves against the working directory. */
  const OUTPUT_DIR: string := "output/images"

  /** `-<resize>` when resizing. */
  function ResizeSuffix(options: Options): string {
    if Falsy(options.resize) then "" else "-" + options.resize.value
  }

  /** `-crop<crop>` with every `+` written as `_`, when cropping. */
  function CropSuffix(options: Options): string {
    if Falsy(options.crop) then "" else "-crop" + ReplaceChar(options.crop.value, '+', '_')
  }

  /** `${baseName}${suffix}.${ext}`. */
  function DefaultFileName(inputPath: string, options: Options, format: string): string {
    Stem(inputPath) + (ResizeSuffix(options) + CropSuffix(options)) + "." + FileExtension(format)
  }

  function OutputPath(inputPath: string, options: Options, format: string): string {
    if Falsy(options.output) then JoinPath(OUTPUT_DIR, DefaultFileName(inputPath, options, format))
    else options.output.value
  }

  /** The crop operation, if a crop is asked for. */
  function CropStep(options: Options): Result<seq<Op>, string> {
    if Falsy(options.crop) then Ok([])
    else
      var spec := ParseCropSpec(options.crop.value);
      if spec.Err? then Err(spec.error) else Ok([CropOp(spec.value, options.gravity)])
  }

  /** The resize operation, if a resize is asked for. */
  function ResizeStep(options: Options): Result<seq<Op>, string> {
    if Falsy(options.resize) then Ok([])
    else
      var dims := ParseDimensions(options.resize.value);
      if dims.Err? then Err(dims.error) else Ok([ResizeOp(dims.value, options.fit)])
  }

  /** What `resizeImage` asks sharp to do, or why it stops. */
  function PlanOf(inputPath: string, inputExists: bool, options: Options): Result<Plan, string> {
    if !inputExists then Err("Input file not found: " + inputPath)
    else if CropStep(options).Err? then Err(CropStep(options).error)
    else if ResizeStep(options).Err? then Err(ResizeStep(options).error)
    else
      var format := ResolveFormat(options.format, inputPath);
      Ok(Plan(CropStep(options).value + ResizeStep(options).value + EncodeOps(format, options.quality),
              format, OutputPath(inputPath, options, format)))
  }

  /** `resizeImage`: the pipeline is extended step by step. */
  method ResizeImage(inputPath: string, inputExists: bool, options: Options) returns (r: Result<Plan, string>)
    ensures r == PlanOf(inputPath, inputExists, options)
  {
    if !inputExists {
      return Err("Input file not found: " + inputPath);
    }
    var pipeline: seq<Op> := [];
    if !Falsy(options.crop) {
      var spec := ParseCropSpec(options.crop.value);
      if spec.Err? {
        return Err(spec.error);
      }
      if spec.value.offset.Some? {
        var o := spec.value.offset.value;
        pipeline := pipeline + [Extract(o.left, o.top, spec.value.width, spec.value.height)];
      } else {
        var gravity := OrDefault(options.gravity, "centre");
        pipeline := pipeline + [Resize(spec.value.width, spec.value.height, "cover", Some(gravity), false)];
      }
      assert pipeline == [CropOp(spec.value, options.gravity)];
    }
    assert CropStep(options) == Ok(pipeline);
    ghost var cropped := pipeline;
    if !Falsy(options.resize) {
      var dims := ParseDimensions(options.resize.value);
      if dims.Err? {
        return Err(dims.error);
      }
      var fit := OrDefault(options.fit, "inside");
      pipeline := pipeline + [Resize(dims.value.width, dims.value.height, fit, None, true)];
      assert ResizeStep(options) == Ok([ResizeOp(dims.value, options.fit)]);
    }
    assert pipeline == cropped + ResizeStep(options).value;
    ghost var resized := pipeline;
    var format := OrDefault(options.format, if InputFormat(inputPath) != [] then InputFormat(inputPath) else "png");
    if format == "jpg" {
      format := "jpeg";
    }
    if format == "png" {
      pipeline := pipeline + [Png(9)];
    } else if format == "jpeg" {
      pipeline := pipeline + [Jpeg(QualityOrDefault(options.quality))];
    } else if format == "webp" {
      pipeline := pipeline + [Webp(QualityOrDefault(options.quality))];
    }
    assert format == ResolveFormat(options.format, inputPath);
    assert pipeline == resized + EncodeOps(format, options.quality);
    var outputPath := ChooseOutputPath(inputPath, options, format);
    return Ok(Plan(pipeline, format, outputPath));
  }

  /** The output-path step of `resizeImage`: the `--output` path, or a name
      built from the input's stem, the resize and crop texts and the format. */
  method ChooseOutputPath(inputPath: string, options: Options, format: string) returns (outputPath: string)
    ensures outputPath == OutputPath(inputPath, options, format)
  {
    if !Falsy(options.output) {
      outputPath := options.output.value;
    } else {
      var suffix := "";
      if !Falsy(options.resize) {
        suffix := suffix + "-" + options.resize.value;
        assert suffix == ResizeSuffix(options);
      }
      ghost var resizeSuffix := suffix;
      if !Falsy(options.crop) {
        suffix := suffix + "-crop" + ReplaceChar(options.crop.value, '+', '_');
        assert suffix == resizeSuffix + CropSuffix(options);
      }
      assert suffix == ResizeSuffix(options) + CropSuffix(options);
      var ext := if format == "jpeg" then "jpg" else format;
      outputPath := JoinPath(OUTPUT_DIR, Stem(inputPath) + suffix + "." + ext);
    }
  }

  /** 0 for the crop, 1 for the resize step, 2 for the encoder. */
  function Stage(op: Op): nat {
    match op
    case Extract(_, _, _, _) => 0
    case Resize(_, _, _, position, _) => if position.Some? then 0 else 1
    case _ => 2
  }

  /** Crop, then resize, then encode: each at most once, in that order. */
  lemma StagesInOrder(inputPath: string, inputExists: bool, options: Options)
    requires PlanOf(inputPath, inputExists, options).Ok?
    ensures var ops := PlanOf(inputPath, inputExists, options).value.ops;
      forall i, j | 0 <= i < j < |ops| :: Stage(ops[i]) < Stage(ops[j])
  {
    var plan := PlanOf(inputPath, inputExists, options).value;
    var crop, resize := CropStep(options).value, ResizeStep(options).value;
    var encode := EncodeOps(plan.format, options.quality);
    assert plan.ops == crop + resize + encode;
    StepStages(options, plan.format);
    InStageOrder(crop, resize, encode);
  }

  /** Each step gives at most one operation, of its own stage. */
  lemma StepStages(options: Options, format: string)
    requires CropStep(options).Ok? && ResizeStep(options).Ok?
    ensures |CropStep(options).value| <= 1 && forall op | op in CropStep(options).value :: Stage(op) == 0
    ensures |ResizeStep(options).value| <= 1 && forall op | op in ResizeStep(options).value :: Stage(op) == 1
    ensures var e := EncodeOps(format, options.quality); |e| <= 1 && forall op | op in e :: Stage(op) == 2
  {
    if !Falsy(options.crop) {
      var spec := ParseCropSpec(options.crop.value).value;
      assert CropStep(options).value == [CropOp(spec, options.gravity)];
    }
  }

  lemma InStageOrder(a: seq<Op>, b: seq<Op>, c: seq<Op>)
    requires |a| <= 1 && forall op | op in a :: Stage(op) == 0
    requires |b| <= 1 && forall op | op in b :: Stage(op) == 1
    requires |c| <= 1 && forall op | op in c :: Stage(op) == 2
    ensures var ops := a + b + c; forall i, j | 0 <= i < j < |ops| :: Stage(ops[i]) < Stage(ops[j])
  {
    var ops := a + b + c;
    forall i | 0 <= i < |ops|
      ensures Stage(ops[i]) == if i < |a| then 0 else if i < |a| + |b| then 1 else 2
    {
      if i < |a| {
        assert ops[i] == a[i];
      } else if i < |a| + |b| {
        assert ops[i] == b[i - |a|];
      } else {
        assert ops[i] == c[i - |a| - |b|];
      }
    }
  }

  /** A crop with an offset is a region extract; one without is a cover
      resize centred on the gravity, `centre` by default. Either comes first. */
  lemma CropComesFirst(inputPath: string, options: Options)
    requires PlanOf(inputPath, true, options).Ok? && !Falsy(options.crop)
    ensures var ops := PlanOf(inputPath, true, options).value.ops;
      var spec := ParseCropSpec(options.crop.value);
      && spec.Ok? && |ops| >= 1
      && (spec.value.offset.Some? ==> ops[0] == Extract(spec.value.offset.value.left, spec.value.offset.value.top, spec.value.width, spec.value.height))
      && (spec.value.offset.None? ==> ops[0] == Resize(spec.value.width, spec.value.height, "cover", Some(OrDefault(options.gravity, "centre")), false))
  {
  }

  /** The crop spec is checked before the resize dimensions. */
  lemma CropErrorComesFirst(inputPath: string, options: Options)
    requires !Falsy(options.crop) && ParseCropSpec(options.crop.value).Err?
    ensures PlanOf(inputPath, true, options) == Err(CropError(options.crop.value))
  {
  }

  /** The resolved format is never `jpg`, and the file extension is never `jpeg`. */
  lemma FormatIsNormalised(format: Option<string>, inputPath: string)
    ensures ResolveFormat(format, inputPath) != "jpg"
    ensures FileExtension(ResolveFormat(format, inputPath)) != "jpeg"
    ensures (ResolveFormat(format, inputPath) == "jpeg") ==
      (OrDefault(format, if InputFormat(inputPath) != [] then InputFormat(inputPath) else "png") in {"jpg", "jpeg"})
  {
  }

  /** A file written under the default name has the format's own extension:
      feeding it back without a format option resolves the same format. */
  lemma DefaultOutputKeepsFormat(inputPath: string, options: Options)
    requires PlanOf(inputPath, true, options).Ok? && Falsy(options.output)
    requires var f := PlanOf(inputPath, true, options).value.format;
      f != [] && ToLower(f) == f && '.' !in f && '/' !in f
    requires Stem(inputPath) != []
    ensures var plan := PlanOf(inputPath, true, options).value;
      ResolveFormat(None, plan.outputPath) == plan.format
  {
    var plan := PlanOf(inputPath, true, options).value;
    var base := Stem(inputPath) + (ResizeSuffix(options) + CropSuffix(options));
    assert plan.outputPath == JoinPath(OUTPUT_DIR, base + "." + FileExtension(plan.format));
    StemHasNoSlash(inputPath);
    SuffixHasNoSlash(options);
    FormatIsNormalised(options.format, inputPath);
    NamedByFormat(base, plan.format);
  }

  /** `<base>.<ext>` under the output directory resolves back to its format. */
  lemma NamedByFormat(base: string, format: string)
    requires base != [] && '/' !in base
    requires format != [] && format != "jpg" && ToLower(format) == format && '.' !in format && '/' !in format
    ensures ResolveFormat(None, JoinPath(OUTPUT_DIR, base + "." + FileExtension(format))) == format
  {
    var ext := FileExtension(format);
    var name := base + "." + ext;
    ExtnameOfName(base, ext);
    assert '/' !in name;
    ExtnameOfJoin(OUTPUT_DIR, name);
    ExtensionIsLower(format);
    DottedLower(ext);
  }

  /** An extension already in lower case stays so behind its dot. */
  lemma DottedLower(ext: string)
    requires ToLower(ext) == ext
    ensures ToLower("." + ext) == "." + ext
  {
    var d := "." + ext;
    assert forall i | 1 <= i < |d| :: d[i] == ext[i - 1];
  }

  lemma ExtensionIsLower(format: string)
    requires ToLower(format) == format
    ensures ToLower(FileExtension(format)) == FileExtension(format)
  {
    if format == "jpeg" {
      var e := ToLower("jpg");
      assert e[0] == 'j' && e[1] == 'p' && e[2] == 'g';
      assert e == "jpg";
    }
  }

  lemma StemHasNoSlash(p: string)
    ensures '/' !in Stem(p)
  {
    var b := Basename(p);
    var st := Stem(p);
    assert forall i | 0 <= i < |st| :: st[i] == b[i];
  }

  /** In a successful plan the resize and crop texts hold no `/`. */
  lemma SuffixHasNoSlash(options: Options)
    requires ResizeStep(options).Ok? && CropStep(options).Ok?
    ensures '/' !in ResizeSuffix(options) + CropSuffix(options)
  {
    ResizeSuffixHasNoSlash(options);
    CropSuffixHasNoSlash(options);
  }

  lemma ResizeSuffixHasNoSlash(options: Options)
    requires ResizeStep(options).Ok?
    ensures '/' !in ResizeSuffix(options)
  {
    if !Falsy(options.resize) {
      DimensionsHaveNoSlash(options.resize.value);
    }
  }

  lemma CropSuffixHasNoSlash(options: Options)
    requires CropStep(options).Ok?
    ensures '/' !in CropSuffix(options)
  {
    if !Falsy(options.crop) {
      var c := options.crop.value;
      CropHasNoSlash(c);
      var r := ReplaceChar(c, '+', '_');
      assert forall i | 0 <= i < |r| :: r[i] == c[i] || r[i] == '_';
      assert '/' !in r;
    }
  }

  lemma DimensionsHaveNoSlash(str: string)
    requires ParseDimensions(str).Ok?
    ensures '/' !in str
  {
    var pieces := Split(str, "x");
    assert pieces == [pieces[0]] + [pieces[1]];
    JoinCons(pieces[0], [pieces[1]], "x");
    assert str == pieces[0] + "x" + pieces[1];
    NumeralHasNoSlash(pieces[0]);
    NumeralHasNoSlash(pieces[1]);
  }

  lemma CropHasNoSlash(str: string)
    requires ParseCropSpec(str).Ok?
    ensures '/' !in str
  {
    if ParseCropSpec(str).value.offset.Some? {
      OffsetCropHasNoSlash(str);
    } else {
      CropWithoutOffsetIsDimensions(str);
      DimensionsHaveNoSlash(str);
    }
  }

  lemma OffsetCropHasNoSlash(str: string)
    requires ParseCropSpec(str).Ok? && ParseCropSpec(str).value.offset.Some?
    ensures '/' !in str
  {
    OffsetPieces(str);
    var pieces := Split(str, "x");
    var rest := Split(pieces[1], "+");
    NumeralsHaveNoSlash(pieces[0], rest[0], rest[1], rest[2]);
  }

  lemma NumeralsHaveNoSlash(w: string, h: string, l: string, t: string)
    requires IsNumeral(w) && IsNumeral(h) && IsNumeral(l) && IsNumeral(t)
    ensures '/' !in OffsetSpecText(w, h, l, t)
  {
    NumeralHasNoSlash(w);
    NumeralHasNoSlash(h);
    NumeralHasNoSlash(l);
    NumeralHasNoSlash(t);
  }

  lemma NumeralHasNoSlash(s: string)
    requires AllDigits(s)
    ensures '/' !in s
  {
  }

  // ---------------------------------------------------------------------------
  // Command line
  // ---------------------------------------------------------------------------

  datatype Scan = Scan(inputFile: Option<string>, options: Options)

  const INITIAL_SCAN: Scan := Scan(None, Options(None, None, None, None, None, None, None))
  const USAGE: string := "Usage: tsx src/scripts/resize-image.ts <image> --resize <W>x<H> | --crop <W>x<H>[+X+Y] [--fit <mode>] [--gravity <pos>] [--format <fmt>] [--quality <n>] [--output <path>]"

  /** `Number(args[++i])`: `undefined` is NaN. */
  function QualityArg(args: seq<string>, i: nat): Option<nat> {
    var a := NextArg(args, i);
    if a.None? then None else StringToNumber(a.value)
  }

  /** The argument loop from index `i` on. Any other argument is taken as the
      input file when none has been taken yet. */
  function ScanFrom(args: seq<string>, i: nat, acc: Scan): Scan
    decreases |args| - i
  {
    if i >= |args| then acc
    else
      var o := acc.options;
      match args[i]
      case "--resize" => ScanFrom(args, i + 2, acc.(options := o.(resize := NextArg(args, i))))
      case "--crop" => ScanFrom(args, i + 2, acc.(options := o.(crop := NextArg(args, i))))
      case "--fit" => ScanFrom(args, i + 2, acc.(options := o.(fit := NextArg(args, i))))
      case "--gravity" => ScanFrom(args, i + 2, acc.(options := o.(gravity := NextArg(args, i))))
      case "--format" => ScanFrom(args, i + 2, acc.(options := o.(format := NextArg(args, i))))
      case "--quality" => ScanFrom(args, i + 2, acc.(options := o.(quality := QualityArg(args, i))))
      case "--output" => ScanFrom(args, i + 2, acc.(options := o.(output := NextArg(args, i))))
      case _ => ScanFrom(args, i + 1, if Falsy(acc.inputFile) then acc.(inputFile := Some(args[i])) else acc)
  }

  /** The guard: an input file and at least one of resize, crop and format. */
  function CommandOf(args: seq<string>): Command<Options> {
    var scan := ScanFrom(args, 0, INITIAL_SCAN);
    var o := scan.options;
    if Falsy(scan.inputFile) || (Falsy(o.resize) && Falsy(o.crop) && Falsy(o.format)) then Fail(USAGE)
    else Run(scan.inputFile.value, o)
  }

  method ParseArgs(args: seq<string>) returns (cmd: Command<Options>)
    ensures cmd == CommandOf(args)
  {
    var scan := INITIAL_SCAN;
    var i := 0;
    while i < |args|
      invariant ScanFrom(args, i, scan) == ScanFrom(args, 0, INITIAL_SCAN)
      decreases |args| - i
    {
      i, scan := ScanArg(args, i, scan);
    }
    var inputFile, opts := scan.inputFile, scan.options;
    if Falsy(inputFile) || (Falsy(opts.resize) && Falsy(opts.crop) && Falsy(opts.format)) {
      return Fail(USAGE);
    }
    return Run(inputFile.value, opts);
  }

  /** One turn of the argument loop: a flag takes the next argument as its
      value and skips it; any other argument becomes the input file while
      none is set. */
  method ScanArg(args: seq<string>, i: nat, acc: Scan) returns (next: nat, scan: Scan)
    requires i < |args|
    ensures i < next && ScanFrom(args, next, scan) == ScanFrom(args, i, acc)
  {
    var arg := args[i];
    var opts := acc.options;
    scan := acc;
    next := i + 2;
    if arg == "--resize" {
      scan := acc.(options := opts.(resize := NextArg(args, i)));
    } else if arg == "--crop" {
      scan := acc.(options := opts.(crop := NextArg(args, i)));
    } else if arg == "--fit" {
      scan := acc.(options := opts.(fit := NextArg(args, i)));
    } else if arg == "--gravity" {
      scan := acc.(options := opts.(gravity := NextArg(args, i)));
    } else if arg == "--format" {
      scan := acc.(options := opts.(format := NextArg(args, i)));
    } else if arg == "--quality" {
      scan := acc.(options := opts.(quality := QualityArg(args, i)));
    } else if arg == "--output" {
      scan := acc.(options := opts.(output := NextArg(args, i)));
    } else {
      next := i + 1;
      if Falsy(acc.inputFile) {
        scan := acc.(inputFile := Some(arg));
      }
    }
  }

  /** Without any of `--resize`, `--crop` and `--format` among the arguments
      the call is refused, whatever else is given. */
  lemma NoWorkIsRefused(args: seq<string>)
    requires "--resize" !in args && "--crop" !in args && "--format" !in args
    ensures CommandOf(args) == Fail(USAGE)
  {
    NoWorkStaysUnset(args, 0, INITIAL_SCAN);
  }

  lemma {:induction false} NoWorkStaysUnset(args: seq<string>, i: nat, acc: Scan)
    requires "--resize" !in args && "--crop" !in args && "--format" !in args
    requires acc.options.resize.None? && acc.options.crop.None? && acc.options.format.None?
    ensures var o := ScanFrom(args, i, acc).options; o.resize.None? && o.crop.None? && o.format.None?
    decreases |args| - i
  {
    if i < |args| {
      var o := acc.options;
      match args[i]
      case "--fit" => NoWorkStaysUnset(args, i + 2, acc.(options := o.(fit := NextArg(args, i))));
      case "--gravity" => NoWorkStaysUnset(args, i + 2, acc.(options := o.(gravity := NextArg(args, i))));
      case "--quality" => NoWorkStaysUnset(args, i + 2, acc.(options := o.(quality := QualityArg(args, i))));
      case "--output" => NoWorkStaysUnset(args, i + 2, acc.(options := o.(output := NextArg(args, i))));
      case _ =>
        assert args[i] in args;
        NoWorkStaysUnset(args, i + 1, if Falsy(acc.inputFile) then acc.(inputFile := Some(args[i])) else acc);
    }
  }

  /** The input file is the first argument that is not a known flag or a
      flag's value, so a plain first argument is the input file. */
  lemma FirstArgumentIsInput(args: seq<string>)
    requires |args| > 0 && args[0] != ""
    requires args[0] !in {"--resize", "--crop", "--fit", "--gravity", "--format", "--quality", "--output"}
    ensures CommandOf(args).Run? ==> CommandOf(args).file == args[0]
  {
    InputIsKept(args, 1, INITIAL_SCAN.(inputFile := Some(args[0])));
  }

  lemma {:induction false} InputIsKept(args: seq<string>, i: nat, acc: Scan)
    requires !Falsy(acc.inputFile)
    ensures ScanFrom(args, i, acc).inputFile == acc.inputFile
    decreases |args| - i
  {
    if i < |args| {
      var o := acc.options;
      match args[i]
      case "--resize" => InputIsKept(args, i + 2, acc.(options := o.(resize := NextArg(args, i))));
      case "--crop" => InputIsKept(args, i + 2, acc.(options := o.(crop := NextArg(args, i))));
      case "--fit" => InputIsKept(args, i + 2, acc.(options := o.(fit := NextArg(args, i))));
      case "--gravity" => InputIsKept(args, i + 2, acc.(options := o.(gravity := NextArg(args, i))));
      case "--format" => InputIsKept(args, i + 2, acc.(options := o.(format := NextArg(args, i))));
      case "--quality" => InputIsKept(args, i + 2, acc.(options := o.(quality := QualityArg(args, i))));
      case "--output" => InputIsKept(args, i + 2, acc.(options := o.(output := NextArg(args, i))));
      case _ => InputIsKept(args, i + 1, acc);
    }
  }
}
