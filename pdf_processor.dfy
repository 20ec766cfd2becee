/** The part of the PDF renderer that is not a library call: the rule that names
    the PNG, and how each way the pipeline can end becomes a result or an error.
    PDF.js, the canvas and the PNG encoder are an oracle, `EngineOutcome`. */
module PdfProcessor {
  import opened Types

  // ---------------------------------------------------------------------------
  // JavaScript string primitives used by the filename rule

  /** `s.lastIndexOf(c)`: the index of the last `c` in `s`, or -1 when there is none. */
  function LastIndexOf(s: string, c: char): (r: int)
    ensures -1 <= r < |s|
    ensures r == -1 <==> c !in s
    ensures 0 <= r ==> s[r] == c && c !in s[r + 1..]
  {
    if |s| == 0 then -1
    else if s[|s| - 1] == c then |s| - 1
    else
      assert s == s[..|s| - 1] + [s[|s| - 1]];
      LastIndexOf(s[..|s| - 1], c)
  }

  /** A `substring` argument clamped into `0..n`, as JavaScript does. */
  function Clamp(x: int, n: nat): (r: nat)
    ensures r <= n
    ensures 0 <= x <= n ==> r == x
  {
    if x < 0 then 0 else if x > n then n else x
  }

  /** `s.substring(start, end)`: both bounds clamped, swapped when reversed. */
  function Substring(s: string, start: int, end: int): (r: string)
    ensures |r| <= |s|
    ensures 0 <= start <= end <= |s| ==> r == s[start..end]
    ensures 0 <= end <= start <= |s| ==> r == s[end..start]
    ensures start <= 0 && end <= 0 ==> r == ""
    ensures start <= 0 && |s| <= end ==> r == s
  {
    var a, b := Clamp(start, |s|), Clamp(end, |s|);
    if a <= b then s[a..b] else s[b..a]
  }

  // ---------------------------------------------------------------------------
  // The output filename rule (services/pdfProcessor.ts:63-64)

  /** `name.substring(0, name.lastIndexOf('.')) || name`: the text before the
      last dot, or the whole name when that text is empty. */
  function BaseName(name: string): (b: string)
    ensures b == "" <==> name == ""
    ensures LastIndexOf(name, '.') > 0 ==> b == name[..LastIndexOf(name, '.')]
    ensures LastIndexOf(name, '.') <= 0 ==> b == name
  {
    var cut := Substring(name, 0, LastIndexOf(name, '.'));
    if cut == "" then name else cut
  }

  /** The name given to the PNG rendered from a file called `name`. */
  function OutputFilename(name: string): (r: string)
    ensures EndsWith(r, ".png")
    ensures |r| > |".png"|
      || (name == "" && r == ".png")
  {
    BaseName(name) + ".png"
  }

  /** The base is the whole name, or a non-empty prefix that stops at the last dot. */
  lemma BaseNameShape(name: string)
    ensures name[..|BaseName(name)|] == BaseName(name) && |BaseName(name)| <= |name|
    ensures BaseName(name) == name
      || (0 < |BaseName(name)| < |name|
          && name[|BaseName(name)|] == '.'
          && '.' !in name[|BaseName(name)| + 1..])
  {
  }

  /** The whole name is kept exactly when no dot appears after the first character. */
  lemma BaseNameKeepsWholeName(name: string)
    ensures BaseName(name) == name <==> forall k :: 0 < k < |name| ==> name[k] != '.'
  {
  }

  /** A name without a dot keeps its whole text: "report" becomes "report.png". */
  lemma OutputFilenameNoDot(name: string)
    requires '.' !in name
    ensures OutputFilename(name) == name + ".png"
  {
  }

  /** A name whose last dot sits at `k > 0` loses the extension:
      "a.b.pdf" becomes "a.b.png". */
  lemma OutputFilenameStripsLastExtension(name: string, k: nat)
    requires 0 < k < |name| && name[k] == '.' && '.' !in name[k + 1..]
    ensures OutputFilename(name) == name[..k] + ".png"
  {
  }

  /** A name whose only dot is its first character falls back to the whole
      name: ".pdf" becomes ".pdf.png". */
  lemma OutputFilenameLeadingDotOnly(name: string)
    requires |name| > 0 && name[0] == '.' && '.' !in name[1..]
    ensures OutputFilename(name) == name + ".png"
  {
  }

  /** "a.b.pdf" becomes "a.b.png": only the last extension goes. */
  lemma OutputFilenameExampleTwoDots()
    ensures OutputFilename("a.b.pdf") == "a.b.png"
  {
  }

  /** ".pdf" becomes ".pdf.png": the empty prefix falls back to the whole name. */
  lemma OutputFilenameExampleDotFile()
    ensures OutputFilename(".pdf") == ".pdf.png"
  {
  }

  /** "notes." becomes "notes.png": a trailing dot is an empty extension. */
  lemma OutputFilenameExampleTrailingDot()
    ensures OutputFilename("notes.") == "notes.png"
  {
  }

  // ---------------------------------------------------------------------------
  // renderFirstPage (services/pdfProcessor.ts:10-75) with the engine as an oracle

  const LockedMessage: string := "Password-protected PDFs are not supported."
  const NoContextMessage: string := "Canvas 2D context initialization failed."
  const EncodingMessage: string := "PNG encoding failed."
  const PipelineFallback: string := "Rendering pipeline failed."

  /** How the browser and PDF.js end one render attempt. */
  datatype EngineOutcome =
    | ReadFailed(message: Option<string>)   // file.arrayBuffer() rejected, before the try block
    | LoadFailed(message: Option<string>)   // getDocument, getPage or page.render threw
    | Locked                                // the document is password protected
    | NoContext                             // the canvas gave no 2D context
    | Encoded(png: Option<Blob>)            // canvas.toBlob called back with a blob or with null

  /** A thrown error; `message` is absent when the thrown value has none. */
  datatype RenderError = RenderError(message: Option<string>)

  /** `error.message || fallback`. */
  function MessageOr(message: Option<string>, fallback: string): (m: string)
  {
    if Truthy(message) then message.value else fallback
  }

  /** The result of rendering page 1 of `file` when the engine ends with `outcome`.
      Errors thrown inside the try block are rethrown with their own message or
      the pipeline fallback; the read error and the encoding error are not
      caught there and keep their message unchanged. */
  function RenderFirstPage(file: SourceFile, outcome: EngineOutcome): (r: Result<RenderResult, RenderError>)
    ensures r.Ok? <==> outcome.Encoded? && outcome.png.Some?
    ensures r.Ok? ==> r.value.blob == outcome.png.value && r.value.filename == OutputFilename(file.name)
    ensures r.Err? && !outcome.ReadFailed? ==> Truthy(r.error.message)
  {
    match outcome
    case ReadFailed(m) => Err(RenderError(m))
    case LoadFailed(m) => Err(RenderError(Some(MessageOr(m, PipelineFallback))))
    case Locked => Err(RenderError(Some(MessageOr(Some(LockedMessage), PipelineFallback))))
    case NoContext => Err(RenderError(Some(MessageOr(Some(NoContextMessage), PipelineFallback))))
    case Encoded(None) => Err(RenderError(Some(EncodingMessage)))
    case Encoded(Some(png)) => Ok(RenderResult(png, OutputFilename(file.name)))
  }

  /** The fixed messages of the three checks, and the fallback for a library
      error without a message. */
  lemma RenderFailureMessages(file: SourceFile, m: Option<string>)
    ensures RenderFirstPage(file, Locked) == Err(RenderError(Some(LockedMessage)))
    ensures RenderFirstPage(file, NoContext) == Err(RenderError(Some(NoContextMessage)))
    ensures RenderFirstPage(file, Encoded(None)) == Err(RenderError(Some(EncodingMessage)))
    ensures RenderFirstPage(file, LoadFailed(m))
      == Err(RenderError(Some(if Truthy(m) then m.value else PipelineFallback)))
    ensures RenderFirstPage(file, ReadFailed(m)) == Err(RenderError(m))
  {
  }

  /** Every successful result is named `<something>.png`. */
  lemma RenderedNameEndsPng(file: SourceFile, outcome: EngineOutcome)
    requires RenderFirstPage(file, outcome).Ok?
    ensures EndsWith(RenderFirstPage(file, outcome).value.filename, ".png")
  {
  }

  // ---------------------------------------------------------------------------
  // triggerDownload (services/pdfProcessor.ts:81-103), as the request it makes

  /** A download handed to the browser: the bytes and the suggested file name. */
  datatype Download = Download(blob: Blob, filename: string)
}
