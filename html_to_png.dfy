/** What `html-to-png.ts` and its twin `html-to-png.js` compute before they
    hand over to a browser: the Tailwind injection, the option defaults, the
    file URL and the argument lists of the browser commands. The two files
    differ only in the browser command line they drive (`agent-browser` for
    the TypeScript file, `playwright-cli` for the JavaScript one). Reading
    and writing files, the browser itself and `sharp` are outside the model;
    the temporary paths and the random name are inputs. */
module HtmlToPng {
  import opened Results
  import opened JsText
  import opened PosixPath

  // ---------------------------------------------------------------------------
  // injectTailwind
  // ---------------------------------------------------------------------------

  const TAILWIND_CDN: string := "<script src=\"https://cdn." + "tailwindcss" + ".com\"></script>"

  /** The page already loads Tailwind. */
  predicate Styled(html: string) {
    Includes(html, "tailwindcss") || Includes(html, "tailwind.css")
  }

  /** `injectTailwind`: the script tag goes before the first `</head>`, else
      after the first `<head>`, else in front of everything. */
  function InjectTailwind(html: string): string {
    if Styled(html) then html
    else if Includes(html, "</head>") then ReplaceFirst(html, "</head>", TAILWIND_CDN + "\n</head>")
    else if Includes(html, "<head>") then ReplaceFirst(html, "<head>", "<head>\n" + TAILWIND_CDN)
    else TAILWIND_CDN + "\n" + html
  }

  /** A page that already mentions Tailwind is left as it is. */
  lemma StyledIsUnchanged(html: string)
    requires Styled(html)
    ensures InjectTailwind(html) == html
  {
  }

  /** With a `</head>`, the tag and a newline go right before the first one;
      the text on either side is untouched. */
  lemma InsertedBeforeFirstHeadClose(html: string)
    requires !Styled(html) && Includes(html, "</head>")
    ensures var i := IndexOf(html, "</head>").value;
      && OccursAt(html, "</head>", i)
      && (forall j | 0 <= j < i :: !OccursAt(html, "</head>", j))
      && InjectTailwind(html) == html[..i] + TAILWIND_CDN + "\n" + html[i..]
  {
    var i := IndexOf(html, "</head>").value;
    var rest := html[i + 7..];
    assert html[i..] == "</head>" + rest by {
      assert html[i..i + 7] == "</head>";
      assert html[i..] == html[i..i + 7] + html[i + 7..];
    }
    assert html[..i] + (TAILWIND_CDN + "\n</head>") + rest == html[..i] + TAILWIND_CDN + "\n" + ("</head>" + rest);
  }

  /** Without `</head>` but with a `<head>`, a newline and the tag go right
      after the first `<head>`; the text on either side is untouched. */
  lemma InsertedAfterFirstHeadOpen(html: string)
    requires !Styled(html) && !Includes(html, "</head>") && Includes(html, "<head>")
    ensures var i := IndexOf(html, "<head>").value;
      && OccursAt(html, "<head>", i)
      && (forall j | 0 <= j < i :: !OccursAt(html, "<head>", j))
      && InjectTailwind(html) == html[..i + 6] + "\n" + TAILWIND_CDN + html[i + 6..]
  {
    var i := IndexOf(html, "<head>").value;
    assert html[..i + 6] == html[..i] + "<head>" by {
      assert html[i..i + 6] == "<head>";
      assert html[..i + 6] == html[..i] + html[i..i + 6];
    }
    assert html[..i] + ("<head>\n" + TAILWIND_CDN) + html[i + 6..] == (html[..i] + "<head>") + "\n" + TAILWIND_CDN + html[i + 6..];
  }

  /** Without either tag, the tag and a newline are put in front and the
      page follows unchanged. */
  lemma PrependedWithoutHead(html: string)
    requires !Styled(html) && !Includes(html, "</head>") && !Includes(html, "<head>")
    ensures var r := InjectTailwind(html);
      && |r| == |TAILWIND_CDN| + 1 + |html|
      && r[..|TAILWIND_CDN|] == TAILWIND_CDN
      && r[|TAILWIND_CDN| + 1..] == html
  {
    var r := InjectTailwind(html);
    assert r == TAILWIND_CDN + ("\n" + html);
  }

  /** The tag names Tailwind. */
  lemma TagIsStyled()
    ensures Includes(TAILWIND_CDN, "tailwindcss")
  {
    IncludesAt("tailwindcss", "tailwindcss", 0);
    IncludesInside("<script src=\"https://cdn.", "tailwindcss", ".com\"></script>", "tailwindcss");
  }

  /** Whatever the page, the result mentions Tailwind. */
  lemma InjectedIsStyled(html: string)
    ensures Styled(InjectTailwind(html))
  {
    TagIsStyled();
    if !Styled(html) {
      if Includes(html, "</head>") {
        InsertedBeforeFirstHeadClose(html);
        var i := IndexOf(html, "</head>").value;
        IncludesInside(html[..i], TAILWIND_CDN, "\n" + html[i..], "tailwindcss");
        assert html[..i] + TAILWIND_CDN + "\n" + html[i..] == html[..i] + TAILWIND_CDN + ("\n" + html[i..]);
      } else if Includes(html, "<head>") {
        InsertedAfterFirstHeadOpen(html);
        var i := IndexOf(html, "<head>").value;
        IncludesInside(html[..i + 6] + "\n", TAILWIND_CDN, html[i + 6..], "tailwindcss");
      } else {
        IncludesInside([], TAILWIND_CDN, "\n" + html, "tailwindcss");
        assert [] + TAILWIND_CDN + ("\n" + html) == TAILWIND_CDN + "\n" + html;
      }
    }
  }

  /** Injecting twice is injecting once. */
  lemma InjectIsIdempotent(html: string)
    ensures InjectTailwind(InjectTailwind(html)) == InjectTailwind(html)
  {
    InjectedIsStyled(html);
  }

  // ---------------------------------------------------------------------------
  // Options and browser commands
  // ---------------------------------------------------------------------------

  const SESSION_NAME := "html-render"
  const DEFAULT_WIDTH: nat := 1200
  const DEFAULT_HEIGHT: nat := 630
  const OUTPUT_DIR := "output/images"

  /** The browser command line a file drives: `agent-browser` from the
      TypeScript file, `playwright-cli` from the JavaScript one. */
  datatype Browser = AgentBrowser | PlaywrightCli

  /** `HtmlToPngOptions`; a `None` number is `undefined` or `NaN`. */
  datatype Options = Options(width: Option<nat>, height: Option<nat>, fullPage: bool, output: Option<string>)

  /** `n || fallback` for a number. */
  function NumberOr(n: Option<nat>, fallback: nat): nat {
    if n.None? || n.value == 0 then fallback else n.value
  }

  /** A size given as a positive number is kept; anything falsy, 0
      included, gives the default. */
  lemma SizeDefaults(n: Option<nat>, fallback: nat)
    ensures n.Some? && n.value > 0 ==> NumberOr(n, fallback) == n.value
    ensures n.None? || n.value == 0 ==> NumberOr(n, fallback) == fallback
    ensures fallback > 0 ==> NumberOr(n, fallback) > 0
  {
  }

  /** The flags naming the browser session. */
  function SessionArgs(browser: Browser): seq<string> {
    match browser
    case AgentBrowser => ["--session", SESSION_NAME]
    case PlaywrightCli => ["-s=" + SESSION_NAME]
  }

  /** `pw`'s argument list: the session flags, then the command and its arguments. */
  function BrowserArgs(browser: Browser, command: string, args: seq<string>): seq<string> {
    SessionArgs(browser) + [command] + args
  }

  /** `file:///` and the temporary path with every backslash turned into `/`. */
  function FileUrl(tmpFile: string): string {
    "file:///" + ReplaceChar(tmpFile, '\\', '/')
  }

  /** The viewport command: `set viewport W H` or `resize W H`. */
  function ViewportCommand(browser: Browser, width: nat, height: nat): (string, seq<string>) {
    match browser
    case AgentBrowser => ("set", ["viewport", NatToString(width), NatToString(height)])
    case PlaywrightCli => ("resize", [NatToString(width), NatToString(height)])
  }

  /** The screenshot arguments: the path, plus the full-page flag when asked. */
  function ScreenshotArgs(browser: Browser, tmpScreenshot: string, fullPage: bool): seq<string> {
    match browser
    case AgentBrowser => [tmpScreenshot] + if fullPage then ["--full"] else []
    case PlaywrightCli => ["--filename=" + tmpScreenshot] + if fullPage then ["--full-page"] else []
  }

  const WAIT_SCRIPT := "new Promise(r => setTimeout(r, 2000))"

  /** The browser calls of one successful render, in order: open, viewport,
      wait, screenshot and close in the `try` block, then the second close
      of the `finally` block. */
  function Commands(browser: Browser, options: Options, tmpFile: string, tmpScreenshot: string): seq<seq<string>> {
    var width := NumberOr(options.width, DEFAULT_WIDTH);
    var height := NumberOr(options.height, DEFAULT_HEIGHT);
    var viewport := ViewportCommand(browser, width, height);
    [ BrowserArgs(browser, "open", [FileUrl(tmpFile)]),
      BrowserArgs(browser, viewport.0, viewport.1),
      BrowserArgs(browser, "eval", [WAIT_SCRIPT]),
      BrowserArgs(browser, "screenshot", ScreenshotArgs(browser, tmpScreenshot, options.fullPage)),
      BrowserArgs(browser, "close", []),
      BrowserArgs(browser, "close", []) ]
  }

  /** `options.output ? path.resolve(options.output) : join(OUTPUT_DIR, uuid + ".png")`;
      the given path is taken as already resolved. */
  function OutputPath(options: Options, uuid: string): string {
    if options.output.None? || options.output.value == "" then JoinPath(OUTPUT_DIR, uuid + ".png")
    else options.output.value
  }

  /** What one call of `htmlToPng` does, once the page has been read. */
  datatype Render = Render(page: string, commands: seq<seq<string>>, outputPath: string)

  /** `htmlToPng`: a missing page is an error; otherwise the injected page,
      the browser calls and the output path. */
  function HtmlToPng(browser: Browser, htmlFile: string, page: Option<string>, options: Options,
                     tmpFile: string, tmpScreenshot: string, uuid: string): Result<Render, string>
  {
    if page.None? then Err("HTML file not found: " + htmlFile)
    else Ok(Render(InjectTailwind(page.value), Commands(browser, options, tmpFile, tmpScreenshot), OutputPath(options, uuid)))
  }

  /** The file URL holds no backslash: every character of the path is kept,
      except that a backslash becomes `/`. */
  lemma FileUrlUsesForwardSlashes(tmpFile: string)
    ensures var url := FileUrl(tmpFile);
      && |url| == 8 + |tmpFile|
      && url[..8] == "file:///"
      && '\\' !in url
      && forall i | 0 <= i < |tmpFile| :: url[8 + i] == (if tmpFile[i] == '\\' then '/' else tmpFile[i])
  {
    var url := FileUrl(tmpFile);
    var tail := ReplaceChar(tmpFile, '\\', '/');
    forall k | 0 <= k < |url|
      ensures url[k] != '\\'
    {
      if k >= 8 {
        assert url[k] == tail[k - 8];
      }
    }
  }

  /** The screenshot command carries the path first and the full-page flag
      exactly when a full-page capture is asked for. */
  lemma FullPageFlagIffAsked(browser: Browser, tmpScreenshot: string, fullPage: bool)
    ensures var args := ScreenshotArgs(browser, tmpScreenshot, fullPage);
      var flag := if browser == AgentBrowser then "--full" else "--full-page";
      && (browser == AgentBrowser ==> args[0] == tmpScreenshot)
      && (browser == PlaywrightCli ==> args[0] == "--filename=" + tmpScreenshot)
      && (flag in args[1..] <==> fullPage)
      && |args| == if fullPage then 2 else 1
  {
  }

  /** A render runs, in the session, open on the file URL, the viewport
      command, the wait, the screenshot and close, in that order, and the
      clean-up closes the session once more. */
  lemma RenderCommandsInOrder(browser: Browser, options: Options, tmpFile: string, tmpScreenshot: string)
    ensures var cmds := Commands(browser, options, tmpFile, tmpScreenshot);
      var s := |SessionArgs(browser)|;
      && |cmds| == 6
      && (forall k | 0 <= k < 6 :: |cmds[k]| > s && cmds[k][..s] == SessionArgs(browser))
      && cmds[0][s..] == ["open", FileUrl(tmpFile)]
      && cmds[1][s] == ViewportCommand(browser, NumberOr(options.width, DEFAULT_WIDTH), NumberOr(options.height, DEFAULT_HEIGHT)).0
      && cmds[2][s..] == ["eval", WAIT_SCRIPT]
      && cmds[3][s..] == ["screenshot"] + ScreenshotArgs(browser, tmpScreenshot, options.fullPage)
      && cmds[4][s..] == ["close"]
      && cmds[5][s..] == ["close"]
  {
    var cmds := Commands(browser, options, tmpFile, tmpScreenshot);
    var s := |SessionArgs(browser)|;
    forall k | 0 <= k < 6
      ensures |cmds[k]| > s && cmds[k][..s] == SessionArgs(browser)
    {
      SessionPrefix(browser, cmds[k][s], cmds[k][s + 1..]);
    }
  }

  lemma SessionPrefix(browser: Browser, command: string, args: seq<string>)
    ensures var full := BrowserArgs(browser, command, args);
      var s := |SessionArgs(browser)|;
      && |full| > s && full[..s] == SessionArgs(browser)
      && full[s] == command && full[s + 1..] == args
  {
  }

  /** The viewport command ends with the width and the height, written in
      digits that read back as those numbers. */
  lemma ViewportStatesSize(browser: Browser, width: nat, height: nat)
    ensures var args := ViewportCommand(browser, width, height).1;
      && |args| >= 2
      && StringToNumber(args[|args| - 2]) == Some(width)
      && StringToNumber(args[|args| - 1]) == Some(height)
  {
    var w, h := NatToString(width), NatToString(height);
    NumberOfNatToString(width);
    NumberOfNatToString(height);
    var args := ViewportCommand(browser, width, height).1;
    assert args[|args| - 2..] == [w, h];
  }

  /** Without an output option the PNG is named by the random name in the
      images directory; with one, that path is used. */
  lemma OutputPathChoice(options: Options, uuid: string)
    requires uuid != "" && '/' !in uuid && '.' !in uuid
    ensures options.output.None? || options.output.value == "" ==>
      var out := OutputPath(options, uuid);
      Basename(out) == uuid + ".png" && Extname(out) == ".png"
    ensures options.output.Some? && options.output.value != "" ==> OutputPath(options, uuid) == options.output.value
  {
    if options.output.None? || options.output.value == "" {
      var name := uuid + ".png";
      assert name == uuid + "." + "png";
      ExtnameOfName(uuid, "png");
      assert '/' !in name;
      ExtnameOfJoin(OUTPUT_DIR, name);
    }
  }

  /** A call fails exactly when the page could not be read; otherwise the page
      sent to the browser carries Tailwind, a page that already did is sent
      as it is, and the six browser calls follow. */
  lemma RenderOrNotFound(browser: Browser, htmlFile: string, page: Option<string>, options: Options,
                         tmpFile: string, tmpScreenshot: string, uuid: string)
    ensures var r := HtmlToPng(browser, htmlFile, page, options, tmpFile, tmpScreenshot, uuid);
      && (r.Err? <==> page.None?)
      && (r.Err? ==> r.error == "HTML file not found: " + htmlFile)
      && (r.Ok? ==>
        && Styled(r.value.page)
        && (Styled(page.value) ==> r.value.page == page.value)
        && r.value.commands == Commands(browser, options, tmpFile, tmpScreenshot)
        && |r.value.commands| == 6
        && r.value.outputPath == OutputPath(options, uuid))
  {
    if page.Some? {
      InjectedIsStyled(page.value);
      if Styled(page.value) {
        StyledIsUnchanged(page.value);
      }
    }
  }
}
