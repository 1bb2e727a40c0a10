/** Reference-image handling and the request/response shape of
    `generate-image.ts`. The file system is a given map from paths to
    directories (their listing) and files (their size); the Gemini call,
    file reading and base64 encoding are outside the model. */
module GenerateImage {
  import opened Results
  import opened JsText
  import opened PosixPath

  // ---------------------------------------------------------------------------
  // File system and constants
  // ---------------------------------------------------------------------------

  /** What `statSync` and `readdirSync` report for a path. */
  datatype Node = Dir(entries: seq<string>) | File(size: nat)

  type FileSystem = map<string, Node>

  /** Directory listings hold plain, non-empty entry names. */
  predicate WellFormed(fs: FileSystem) {
    forall p | p in fs && fs[p].Dir? :: forall e | e in fs[p].entries :: e != "" && '/' !in e
  }

  const SUPPORTED_EXTENSIONS: set<string> := {".png", ".jpg", ".jpeg", ".webp", ".gif"}

  const MIME_TYPES: map<string, string> := map[
    ".png" := "image/png", ".jpg" := "image/jpeg", ".jpeg" := "image/jpeg",
    ".webp" := "image/webp", ".gif" := "image/gif"]

  const MAX_REFERENCE_IMAGES: nat := 10
  const MAX_IMAGE_BYTES: nat := 20 * 1024 * 1024

  /** A reference image; `mimeType` is the table lookup, `None` for `undefined`. */
  datatype ReferenceImage = ReferenceImage(filePath: string, mimeType: Option<string>)

  datatype RefError =
    | NotFound(path: string)
    | NoSupportedImages(dir: string)
    | UnsupportedFormat(ext: string, path: string)
    | TooManyImages(count: nat)
    | TooLarge(path: string, size: nat)

  /** `path.extname(p).toLowerCase()`. */
  function LowerExt(p: string): string {
    ToLower(Extname(p))
  }

  predicate IsSupported(p: string) {
    LowerExt(p) in SUPPORTED_EXTENSIONS
  }

  /** `MIME_TYPES[ext]`. */
  function MimeOf(p: string): Option<string> {
    var e := LowerExt(p);
    if e in MIME_TYPES then Some(MIME_TYPES[e]) else None
  }

  // ---------------------------------------------------------------------------
  // resolveReferenceImages, as functions
  // ---------------------------------------------------------------------------

  /** A `for ... of` loop that pushes the items `f` gives for each element
      and stops at the first element that throws. */
  function Collect<C, T, U, E>(ctx: C, xs: seq<T>, f: (C, T) -> Result<seq<U>, E>): Result<seq<U>, E> {
    if xs == [] then Ok([])
    else
      var init := Collect(ctx, xs[..|xs| - 1], f);
      var last := f(ctx, xs[|xs| - 1]);
      if init.Err? then init
      else if last.Err? then Err(last.error)
      else Ok(init.value + last.value)
  }

  /** `xs.map(f)` with an `f` that may throw: the first throw is the error. */
  function MapAll<C, T, U, E>(ctx: C, xs: seq<T>, f: (C, T) -> Result<U, E>): Result<seq<U>, E> {
    if xs == [] then Ok([])
    else
      var init := MapAll(ctx, xs[..|xs| - 1], f);
      var last := f(ctx, xs[|xs| - 1]);
      if init.Err? then init
      else if last.Err? then Err(last.error)
      else Ok(init.value + [last.value])
  }

  /** `entries.filter(e => SUPPORTED_EXTENSIONS.has(extname(e).toLowerCase()))`. */
  function Matched(entries: seq<string>): seq<string> {
    Filter(entries, IsSupported)
  }

  /** `names.map(n => path.join(dir, n))`. */
  function JoinAll(dir: string, names: seq<string>): seq<string> {
    if names == [] then []
    else JoinAll(dir, names[..|names| - 1]) + [JoinPath(dir, names[|names| - 1])]
  }

  /** The images one reference stands for. */
  function Expand(fs: FileSystem, ref: string): Result<seq<string>, RefError> {
    if ref !in fs then Err(NotFound(ref))
    else match fs[ref]
      case Dir(entries) =>
        var matched := Matched(entries);
        if matched == [] then Err(NoSupportedImages(ref)) else Ok(JoinAll(ref, matched))
      case File(_) =>
        if IsSupported(ref) then Ok([ref]) else Err(UnsupportedFormat(LowerExt(ref), ref))
  }

  /** All references in order; the first failing one decides the error. */
  function ExpandAll(fs: FileSystem, refs: seq<string>): Result<seq<string>, RefError> {
    Collect(fs, refs, Expand)
  }

  /** `statSync(p).size`; a directory in an image's place is not modelled and counts as 0. */
  function SizeOf(fs: FileSystem, p: string): Result<nat, RefError> {
    if p !in fs then Err(NotFound(p))
    else match fs[p]
      case File(size) => Ok(size)
      case Dir(_) => Ok(0)
  }

  /** One image, checked against the size cap. */
  function Measure(fs: FileSystem, p: string): Result<ReferenceImage, RefError> {
    var size := SizeOf(fs, p);
    if size.Err? then Err(size.error)
    else if size.value > MAX_IMAGE_BYTES then Err(TooLarge(p, size.value))
    else Ok(ReferenceImage(p, MimeOf(p)))
  }

  /** `images.map(...)`: the first image over the cap decides the error. */
  function MeasureAll(fs: FileSystem, paths: seq<string>): Result<seq<ReferenceImage>, RefError> {
    MapAll(fs, paths, Measure)
  }

  /** `resolveReferenceImages`: expand, check the count, then check sizes. */
  function ResolvedReferences(fs: FileSystem, refs: seq<string>): Result<seq<ReferenceImage>, RefError> {
    var paths := ExpandAll(fs, refs);
    if paths.Err? then Err(paths.error)
    else if |paths.value| > MAX_REFERENCE_IMAGES then Err(TooManyImages(|paths.value|))
    else MeasureAll(fs, paths.value)
  }

  // ---------------------------------------------------------------------------
  // resolveReferenceImages, as the loops it is written with
  // ---------------------------------------------------------------------------

  method ResolveReferenceImages(fs: FileSystem, refs: seq<string>) returns (r: Result<seq<ReferenceImage>, RefError>)
    ensures r == ResolvedReferences(fs, refs)
  {
    var images: seq<string> := [];
    for k := 0 to |refs|
      invariant Collect(fs, refs[..k], Expand) == Ok(images)
    {
      CollectStep(fs, refs, Expand, k);
      var added := PushReference(fs, refs[k], images);
      if added.Err? {
        CollectFirstErrorWins(fs, refs, Expand, k + 1);
        return Err(added.error);
      }
      images := added.value;
    }
    assert refs[..|refs|] == refs;
    if |images| > MAX_REFERENCE_IMAGES {
      return Err(TooManyImages(|images|));
    }
    var result: seq<ReferenceImage> := [];
    for k := 0 to |images|
      invariant MapAll(fs, images[..k], Measure) == Ok(result)
    {
      MapAllStep(fs, images, Measure, k);
      var size := SizeOf(fs, images[k]);
      if size.Err? || size.value > MAX_IMAGE_BYTES {
        MapAllFirstErrorWins(fs, images, Measure, k + 1);
        return if size.Err? then Err(size.error) else Err(TooLarge(images[k], size.value));
      }
      result := result + [ReferenceImage(images[k], MimeOf(images[k]))];
    }
    assert images[..|images|] == images;
    r := Ok(result);
  }

  /** The loop body for one reference: push its images, or stop. */
  method PushReference(fs: FileSystem, ref: string, images: seq<string>) returns (r: Result<seq<string>, RefError>)
    ensures Expand(fs, ref).Err? ==> r == Err(Expand(fs, ref).error)
    ensures Expand(fs, ref).Ok? ==> r == Ok(images + Expand(fs, ref).value)
  {
    if ref !in fs {
      return Err(NotFound(ref));
    }
    if fs[ref].Dir? {
      var matched := Matched(fs[ref].entries);
      if |matched| == 0 {
        return Err(NoSupportedImages(ref));
      }
      var acc := PushJoined(ref, matched, images);
      return Ok(acc);
    } else {
      var ext := LowerExt(ref);
      if ext !in SUPPORTED_EXTENSIONS {
        return Err(UnsupportedFormat(ext, ref));
      }
      return Ok(images + [ref]);
    }
  }

  /** `for (const file of matched) images.push(path.join(resolved, file))`. */
  method PushJoined(dir: string, names: seq<string>, images: seq<string>) returns (acc: seq<string>)
    ensures acc == images + JoinAll(dir, names)
  {
    acc := images;
    for j := 0 to |names|
      invariant acc == images + JoinAll(dir, names[..j])
    {
      assert names[..j + 1][..j] == names[..j];
      acc := acc + [JoinPath(dir, names[j])];
    }
    assert names[..|names|] == names;
  }

  lemma CollectStep<C, T, U, E>(ctx: C, xs: seq<T>, f: (C, T) -> Result<seq<U>, E>, k: nat)
    requires k < |xs|
    ensures Collect(ctx, xs[..k + 1], f) ==
      var init := Collect(ctx, xs[..k], f);
      var last := f(ctx, xs[k]);
      if init.Err? then init else if last.Err? then Err(last.error) else Ok(init.value + last.value)
  {
    assert xs[..k + 1][..k] == xs[..k];
  }

  lemma MapAllStep<C, T, U, E>(ctx: C, xs: seq<T>, f: (C, T) -> Result<U, E>, k: nat)
    requires k < |xs|
    ensures MapAll(ctx, xs[..k + 1], f) ==
      var init := MapAll(ctx, xs[..k], f);
      var last := f(ctx, xs[k]);
      if init.Err? then init else if last.Err? then Err(last.error) else Ok(init.value + [last.value])
  {
    assert xs[..k + 1][..k] == xs[..k];
  }

  /** Once an element has thrown, the later ones are never looked at. */
  lemma {:induction false} CollectFirstErrorWins<C, T, U, E>(ctx: C, xs: seq<T>, f: (C, T) -> Result<seq<U>, E>, k: nat)
    requires k <= |xs| && Collect(ctx, xs[..k], f).Err?
    ensures Collect(ctx, xs, f) == Collect(ctx, xs[..k], f)
    decreases |xs| - k
  {
    if k < |xs| {
      CollectStep(ctx, xs, f, k);
      CollectFirstErrorWins(ctx, xs, f, k + 1);
    } else {
      assert xs[..k] == xs;
    }
  }

  lemma {:induction false} MapAllFirstErrorWins<C, T, U, E>(ctx: C, xs: seq<T>, f: (C, T) -> Result<U, E>, k: nat)
    requires k <= |xs| && MapAll(ctx, xs[..k], f).Err?
    ensures MapAll(ctx, xs, f) == MapAll(ctx, xs[..k], f)
    decreases |xs| - k
  {
    if k < |xs| {
      MapAllStep(ctx, xs, f, k);
      MapAllFirstErrorWins(ctx, xs, f, k + 1);
    } else {
      assert xs[..k] == xs;
    }
  }

  // ---------------------------------------------------------------------------
  // What resolution promises
  // ---------------------------------------------------------------------------

  /** The directory filter keeps listing order and exactly the entries whose
      lower-cased extension is supported. */
  lemma MatchedIsOrderedFilter(a: seq<string>, b: seq<string>, e: string)
    ensures Matched(a + b) == Matched(a) + Matched(b)
    ensures e in Matched(a) <==> e in a && IsSupported(e)
  {
    FilterKeepsOrder(a, b, IsSupported);
    FilterMembership(a, IsSupported, e);
  }

  /** The loop pushes in order: the items of `a + b` are those of `a`
      followed by those of `b`. */
  lemma {:induction false} CollectKeepsOrder<C, T, U, E>(ctx: C, a: seq<T>, b: seq<T>, f: (C, T) -> Result<seq<U>, E>)
    requires Collect(ctx, a, f).Ok? && Collect(ctx, b, f).Ok?
    ensures Collect(ctx, a + b, f) == Ok(Collect(ctx, a, f).value + Collect(ctx, b, f).value)
    decreases |b|
  {
    if b == [] {
      assert a + b == a;
      assert Collect(ctx, a, f).value + Collect(ctx, b, f).value == Collect(ctx, a, f).value;
    } else {
      var init := b[..|b| - 1];
      var last := b[|b| - 1];
      assert Collect(ctx, init, f).Ok? && f(ctx, last).Ok?;
      CollectKeepsOrder(ctx, a, init, f);
      assert (a + b)[..|a + b| - 1] == a + init;
      assert (a + b)[|a + b| - 1] == last;
      var front := Collect(ctx, a, f).value;
      var middle := Collect(ctx, init, f).value;
      var back := f(ctx, last).value;
      assert Collect(ctx, a + init, f) == Ok(front + middle);
      assert Collect(ctx, a + b, f) == Ok((front + middle) + back);
      assert Collect(ctx, b, f) == Ok(middle + back);
      assert (front + middle) + back == front + (middle + back);
    }
  }

  /** References expand in order: the images of `a + b` are those of `a`
      followed by those of `b`. */
  lemma ExpandAllKeepsOrder(fs: FileSystem, a: seq<string>, b: seq<string>)
    requires ExpandAll(fs, a).Ok? && ExpandAll(fs, b).Ok?
    ensures ExpandAll(fs, a + b) == Ok(ExpandAll(fs, a).value + ExpandAll(fs, b).value)
  {
    CollectKeepsOrder(fs, a, b, Expand);
  }

  /** A successful map gives one result per element, each the element's own. */
  lemma {:induction false} MapAllPointwise<C, T, U, E>(ctx: C, xs: seq<T>, f: (C, T) -> Result<U, E>)
    requires MapAll(ctx, xs, f).Ok?
    ensures |MapAll(ctx, xs, f).value| == |xs|
    ensures forall i | 0 <= i < |xs| :: f(ctx, xs[i]) == Ok(MapAll(ctx, xs, f).value[i])
  {
    if xs != [] {
      var init := xs[..|xs| - 1];
      MapAllPointwise(ctx, init, f);
      assert forall i | 0 <= i < |init| :: xs[i] == init[i];
    }
  }

  /** More than ten images fail on the count, whatever their sizes. */
  lemma CountIsCheckedBeforeSizes(fs: FileSystem, refs: seq<string>)
    requires ExpandAll(fs, refs).Ok? && |ExpandAll(fs, refs).value| > MAX_REFERENCE_IMAGES
    ensures ResolvedReferences(fs, refs) == Err(TooManyImages(|ExpandAll(fs, refs).value|))
  {
  }

  /** What a measured image is: its own path with its table MIME type,
      a known file within the size cap. */
  lemma MeasuredImage(fs: FileSystem, p: string)
    requires Measure(fs, p).Ok?
    ensures Measure(fs, p).value == ReferenceImage(p, MimeOf(p))
    ensures SizeOf(fs, p).Ok? && SizeOf(fs, p).value <= MAX_IMAGE_BYTES
  {
  }

  /** Measuring keeps the paths, one image per path, each within the cap
      and carrying its table MIME type. */
  lemma MeasuredImages(fs: FileSystem, paths: seq<string>)
    requires MeasureAll(fs, paths).Ok?
    ensures var images := MeasureAll(fs, paths).value;
      && |images| == |paths|
      && forall i | 0 <= i < |paths| ::
           && images[i] == ReferenceImage(paths[i], MimeOf(paths[i]))
           && SizeOf(fs, paths[i]).Ok? && SizeOf(fs, paths[i]).value <= MAX_IMAGE_BYTES
  {
    var images := MeasureAll(fs, paths).value;
    MapAllPointwise(fs, paths, Measure);
    forall i | 0 <= i < |paths|
      ensures images[i] == ReferenceImage(paths[i], MimeOf(paths[i]))
      ensures SizeOf(fs, paths[i]).Ok? && SizeOf(fs, paths[i]).value <= MAX_IMAGE_BYTES
    {
      MeasuredImage(fs, paths[i]);
    }
  }

  /** A result holds at most ten images, each a known file within the size cap. */
  lemma ResolvedAreWithinLimits(fs: FileSystem, refs: seq<string>)
    requires ResolvedReferences(fs, refs).Ok?
    ensures var images := ResolvedReferences(fs, refs).value;
      && |images| <= MAX_REFERENCE_IMAGES
      && forall i | 0 <= i < |images| ::
           SizeOf(fs, images[i].filePath).Ok? && SizeOf(fs, images[i].filePath).value <= MAX_IMAGE_BYTES
  {
    var paths := ExpandAll(fs, refs).value;
    MeasuredImages(fs, paths);
  }

  /** The cap is inclusive: a supported file of exactly 20 MB passes, one
      byte more does not. */
  lemma SizeCapIsInclusive(p: string)
    requires IsSupported(p)
    ensures ResolvedReferences(map[p := File(MAX_IMAGE_BYTES)], [p]) == Ok([ReferenceImage(p, MimeOf(p))])
    ensures ResolvedReferences(map[p := File(MAX_IMAGE_BYTES + 1)], [p]) == Err(TooLarge(p, MAX_IMAGE_BYTES + 1))
  {
    SingleReference(map[p := File(MAX_IMAGE_BYTES)], p);
    SingleReference(map[p := File(MAX_IMAGE_BYTES + 1)], p);
  }

  /** One supported file resolves to itself, or to its size error. */
  lemma SingleReference(fs: FileSystem, p: string)
    requires IsSupported(p) && p in fs && fs[p].File?
    ensures ResolvedReferences(fs, [p]) == MapAll(fs, [p], Measure)
    ensures MapAll(fs, [p], Measure) ==
      if fs[p].size > MAX_IMAGE_BYTES then Err(TooLarge(p, fs[p].size)) else Ok([ReferenceImage(p, MimeOf(p))])
  {
    SingleFileExpands(fs, p);
    MapAllSingle(fs, p, Measure);
  }

  lemma SingleFileExpands(fs: FileSystem, p: string)
    requires IsSupported(p) && p in fs && fs[p].File?
    ensures ExpandAll(fs, [p]) == Ok([p])
  {
    assert Expand(fs, p) == Ok([p]);
    CollectSingle(fs, p, Expand);
  }

  lemma CollectSingle<C, T, U, E>(ctx: C, x: T, f: (C, T) -> Result<seq<U>, E>)
    ensures Collect(ctx, [x], f) == f(ctx, x)
  {
    assert [x][..0] == [] && [x][0] == x;
    assert Collect(ctx, [], f) == Ok([]);
    if f(ctx, x).Ok? {
      assert [] + f(ctx, x).value == f(ctx, x).value;
    }
  }

  lemma MapAllSingle<C, T, U, E>(ctx: C, x: T, f: (C, T) -> Result<U, E>)
    ensures MapAll(ctx, [x], f) == if f(ctx, x).Err? then Err(f(ctx, x).error) else Ok([f(ctx, x).value])
  {
    assert [x][..0] == [] && [x][0] == x;
    assert MapAll(ctx, [], f) == Ok([]);
    if f(ctx, x).Ok? {
      assert [] + [f(ctx, x).value] == [f(ctx, x).value];
    }
  }

  /** Every resolved image has a supported extension and the MIME type the
      table gives it; `.jpg` and `.jpeg` both give `image/jpeg`. */
  lemma EveryImageHasTableMime(fs: FileSystem, refs: seq<string>)
    requires WellFormed(fs) && ResolvedReferences(fs, refs).Ok?
    ensures var images := ResolvedReferences(fs, refs).value;
      forall i | 0 <= i < |images| ::
        && IsSupported(images[i].filePath)
        && images[i].mimeType == Some(MIME_TYPES[LowerExt(images[i].filePath)])
    ensures MIME_TYPES[".jpg"] == MIME_TYPES[".jpeg"] == "image/jpeg"
  {
    var paths := ExpandAll(fs, refs).value;
    ExpandedAreSupported(fs, refs);
    MeasuredImages(fs, paths);
  }

  lemma {:induction false} ExpandedAreSupported(fs: FileSystem, refs: seq<string>)
    requires WellFormed(fs) && ExpandAll(fs, refs).Ok?
    ensures forall p | p in ExpandAll(fs, refs).value :: IsSupported(p)
  {
    if refs != [] {
      ExpandedAreSupported(fs, refs[..|refs| - 1]);
      var ref := refs[|refs| - 1];
      if fs[ref].Dir? {
        var matched := Matched(fs[ref].entries);
        forall e | e in matched
          ensures IsSupported(e) && '/' !in e
        {
          FilterMembership(fs[ref].entries, IsSupported, e);
        }
        JoinedAreSupported(ref, matched);
      }
    }
  }

  /** Joining supported names onto a directory keeps them supported. */
  lemma {:induction false} JoinedAreSupported(dir: string, names: seq<string>)
    requires forall e | e in names :: IsSupported(e) && '/' !in e
    ensures forall p | p in JoinAll(dir, names) :: IsSupported(p)
  {
    if names != [] {
      var last := names[|names| - 1];
      JoinedAreSupported(dir, names[..|names| - 1]);
      ExtnameOfJoin(dir, last);
    }
  }

  // ---------------------------------------------------------------------------
  // Request and response
  // ---------------------------------------------------------------------------

  /** A request part: image data (named here by the file it is read from) or text. */
  datatype Part = InlineData(mimeType: Option<string>, source: string) | Text(text: string)

  datatype Contents = PromptOnly(prompt: string) | UserMessage(role: string, parts: seq<Part>)

  /** `buildContents`: the bare prompt without images, else one user message
      with every image followed by the prompt. */
  function BuildContents(prompt: string, referenceImages: Option<seq<ReferenceImage>>): Contents {
    if referenceImages.None? || |referenceImages.value| == 0 then PromptOnly(prompt)
    else
      var images := referenceImages.value;
      UserMessage("user", seq(|images|, i requires 0 <= i < |images| => InlineData(images[i].mimeType, images[i].filePath)) + [Text(prompt)])
  }

  /** The images come first, in order, and the prompt is the last part. */
  lemma PromptComesLast(prompt: string, images: seq<ReferenceImage>)
    requires |images| > 0
    ensures var c := BuildContents(prompt, Some(images));
      && c.UserMessage? && c.role == "user" && |c.parts| == |images| + 1
      && c.parts[|images|] == Text(prompt)
      && forall i | 0 <= i < |images| :: c.parts[i].InlineData? && c.parts[i].source == images[i].filePath
  {
  }

  /** `mimeType?.split("/")[1] || "png"`. */
  function OutputExtension(mimeType: Option<string>): string {
    if mimeType.None? then "png"
    else
      var pieces := Split(mimeType.value, "/");
      if |pieces| >= 2 && pieces[1] != "" then pieces[1] else "png"
  }

  /** The subtype of `image/<sub>` names the file; a missing or empty
      subtype gives `png`. */
  lemma ExtensionIsSubtype(sub: string)
    requires '/' !in sub
    ensures OutputExtension(Some("image/" + sub)) == if sub == "" then "png" else sub
    ensures OutputExtension(Some(sub)) == "png"
  {
    AbsentCharNotIncluded(sub, '/');
    AbsentCharNotIncluded("image", '/');
    SplitPair("image", sub, "/");
    assert "image/" + sub == "image" + "/" + sub;
  }

  /** `${filename}.${ext}` in the output directory. */
  function OutputFile(outputDir: string, filename: string, mimeType: Option<string>): string {
    JoinPath(outputDir, filename + "." + OutputExtension(mimeType))
  }

  /** An `image/<sub>` part is saved in the output directory as
      `<filename>.<sub>`, so the file's extension is the subtype. */
  lemma SavedFileNamedByMime(outputDir: string, filename: string, sub: string)
    requires filename != [] && '/' !in filename
    requires sub != [] && '/' !in sub && '.' !in sub
    ensures Basename(OutputFile(outputDir, filename, Some("image/" + sub))) == filename + "." + sub
    ensures Extname(OutputFile(outputDir, filename, Some("image/" + sub))) == "." + sub
  {
    ExtensionIsSubtype(sub);
    var name := filename + "." + sub;
    assert '/' !in name;
    ExtnameOfName(filename, sub);
    ExtnameOfJoin(outputDir, name);
  }

  /** The response loop: the first part carrying image data is saved. */
  method FirstImagePart(parts: seq<Part>) returns (r: Result<nat, string>)
    ensures r.Ok? ==> r.value < |parts| && parts[r.value].InlineData? && forall j | 0 <= j < r.value :: !parts[j].InlineData?
    ensures r.Err? <==> forall j | 0 <= j < |parts| :: !parts[j].InlineData?
    ensures r.Err? ==> r.error == "No image was returned by the model."
  {
    for k := 0 to |parts|
      invariant forall j | 0 <= j < k :: !parts[j].InlineData?
    {
      if parts[k].InlineData? {
        return Ok(k);
      }
    }
    return Err("No image was returned by the model.");
  }
}
