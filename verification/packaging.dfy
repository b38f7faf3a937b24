/**
 * What one export job produces from the captured bitmap: a PDF whose page
 * is the bitmap (up to jsPDF's page cap), or a PNG of it, named after the person and the language.
 * The rasteriser itself is not modelled; its outcome is an input.
 */
module Packaging {
  import opened Wrappers
  import opened Languages

  /** `type: 'pdf' | 'png'` of an export request. */
  datatype ExportKind = Pdf | Png

  /** The captured bitmap, by its pixel dimensions. */
  datatype Canvas = Canvas(width: nat, height: nat)

  /** The outcome of the job's fallible steps: any step threw, or the bitmap was captured and, for a PNG, serialised to a blob or not. */
  datatype Capture = Threw | Rendered(canvas: Canvas, blobProduced: bool)

  datatype Orientation = Portrait | Landscape
  datatype Size = Size(width: nat, height: nat)
  datatype Rect = Rect(x: nat, y: nat, width: nat, height: nat)
  datatype Rgb = Rgb(r: nat, g: nat, b: nat)

  /** A one-page PDF: its orientation, its page size, the filled background rectangle and the rectangle the bitmap is drawn into. */
  datatype PdfDocument = PdfDocument(orientation: Orientation, page: Size, fill: Rgb, background: Rect, image: Rect)

  /** A downloaded file. */
  datatype Artifact =
    | PdfFile(name: string, document: PdfDocument)
    | PngFile(name: string, width: nat, height: nat)

  /** An export request accepted by the guard, with the language current when it was made. */
  datatype Job = Job(kind: ExportKind, lang: Language)

  /** The person identifier every exported file name starts with. */
  const NamePrefix: string := "Gao_Jie_Resume_"

  function Extension(kind: ExportKind): string
  {
    match kind
    case Pdf => ".pdf"
    case Png => ".png"
  }

  /** `Gao_Jie_Resume_${lang}.pdf` and `Gao_Jie_Resume_${lang}.png`. */
  function FileName(lang: Language, kind: ExportKind): (r: string)
    ensures |r| == |NamePrefix| + 6
    ensures r[..|NamePrefix|] == NamePrefix
    ensures r[|NamePrefix|..|NamePrefix| + 2] == Code(lang)
    ensures r[|NamePrefix| + 2..] == Extension(kind)
  {
    NamePrefix + Code(lang) + Extension(kind)
  }

  /** The language and kind a file name encodes, if it is an export file name at all. */
  function ParseFileName(name: string): (r: Option<(Language, ExportKind)>)
  {
    if |name| != |NamePrefix| + 6 || name[..|NamePrefix|] != NamePrefix then None
    else
      var ext := name[|NamePrefix| + 2..];
      match FromCode(name[|NamePrefix|..|NamePrefix| + 2])
      case None => None
      case Some(lang) =>
        if ext == ".pdf" then Some((lang, Pdf))
        else if ext == ".png" then Some((lang, Png))
        else None
  }

  /** The file name determines the language and kind of the export. */
  lemma FileNameRoundTrip(lang: Language, kind: ExportKind)
    ensures ParseFileName(FileName(lang, kind)) == Some((lang, kind))
  {
  }

  /** Parsing only accepts names that FileName produces. */
  lemma ParseFileNameSound(name: string)
    requires ParseFileName(name).Some?
    ensures var (lang, kind) := ParseFileName(name).value; FileName(lang, kind) == name
  {
  }

  /** Different exports never share a file name. */
  lemma FileNameInjective(l1: Language, k1: ExportKind, l2: Language, k2: ExportKind)
    requires FileName(l1, k1) == FileName(l2, k2)
    ensures l1 == l2 && k1 == k2
  {
  }

  /** The names of the same export in the two languages differ only in the two-letter language segment. */
  lemma FileNamesDifferOnlyInLanguage(kind: ExportKind)
    ensures var zh, en := FileName(Zh, kind), FileName(En, kind);
      |zh| == |en| && zh != en &&
      forall i | 0 <= i < |zh| && (i < |NamePrefix| || i >= |NamePrefix| + 2) :: zh[i] == en[i]
  {
  }

  /** The orientation the export asks for: landscape exactly when the bitmap is wider than tall. */
  function OrientationFor(width: nat, height: nat): Orientation
  {
    if width > height then Landscape else Portrait
  }

  /**
   * The largest page side jsPDF makes, in pixels: it caps each side at 14400
   * user units, and its `px` unit is 96/72 of a unit, so the cap is 10800 px.
   */
  const MaxPagePx: nat := 10800

  function Min(a: nat, b: nat): nat
  {
    if a <= b then a else b
  }

  /**
   * The page size, in pixels, that jsPDF makes for `{orientation, unit: 'px',
   * format: [w, h]}`: it first caps each side at MaxPagePx, then swaps the two
   * sides when they disagree with the requested orientation. jsPDF itself is
   * not part of this model; this is the rule assumed of it. Under this rule a
   * fixed portrait request would give a wide bitmap a tall page: choosing the
   * orientation from the bitmap's shape is what keeps the sides in place.
   */
  function JsPdfPage(orientation: Orientation, w: nat, h: nat): (r: Size)
    ensures var cw, ch := Min(w, MaxPagePx), Min(h, MaxPagePx);
            r == Size(cw, ch) || r == Size(ch, cw)
    ensures r.width <= MaxPagePx && r.height <= MaxPagePx
    ensures orientation == Landscape ==> r.width >= r.height
    ensures orientation == Portrait ==> r.width <= r.height
  {
    var cw, ch := Min(w, MaxPagePx), Min(h, MaxPagePx);
    match orientation
    case Landscape => if ch > cw then Size(ch, cw) else Size(cw, ch)
    case Portrait => if cw > ch then Size(ch, cw) else Size(cw, ch)
  }

  /** `pdf.setFillColor(245, 245, 247)`. */
  const PdfFill := Rgb(245, 245, 247)

  /** The background given to the rasteriser and to the cloned page body. */
  const CaptureBackground: string := "#F5F5F7"

  /**
   * The PDF built from a bitmap: the page is the bitmap's size, each side capped
   * at MaxPagePx and never turned on its side; the background is filled and the
   * bitmap drawn over the rectangle of the bitmap's own size, which covers the
   * page exactly when the bitmap is within the cap and overflows it otherwise.
   */
  function NewPdf(c: Canvas): (d: PdfDocument)
    ensures d.page == Size(Min(c.width, MaxPagePx), Min(c.height, MaxPagePx))
    ensures c.width <= MaxPagePx && c.height <= MaxPagePx ==> d.page == Size(c.width, c.height)
    ensures d.orientation == Landscape <==> c.width > c.height
    ensures d.background == d.image == Rect(0, 0, c.width, c.height)
    ensures d.image == Rect(0, 0, d.page.width, d.page.height) <==> c.width <= MaxPagePx && c.height <= MaxPagePx
  {
    var orientation := OrientationFor(c.width, c.height);
    PdfDocument(orientation, JsPdfPage(orientation, c.width, c.height), PdfFill,
                Rect(0, 0, c.width, c.height), Rect(0, 0, c.width, c.height))
  }

  function HexDigit(ch: char): (r: Option<nat>)
    ensures r.Some? ==> r.value < 16
  {
    if '0' <= ch <= '9' then Some(ch as int - '0' as int)
    else if 'A' <= ch <= 'F' then Some(ch as int - 'A' as int + 10)
    else if 'a' <= ch <= 'f' then Some(ch as int - 'a' as int + 10)
    else None
  }

  function HexByte(hi: char, lo: char): (r: Option<nat>)
    ensures r.Some? ==> r.value < 256
  {
    match (HexDigit(hi), HexDigit(lo))
    case (Some(h), Some(l)) => Some(16 * h + l)
    case _ => None
  }

  /** A CSS colour of the form `#RRGGBB`. */
  function ParseHexColor(s: string): (r: Option<Rgb>)
    ensures r.Some? ==> r.value.r < 256 && r.value.g < 256 && r.value.b < 256
  {
    if |s| != 7 || s[0] != '#' then None
    else
      match (HexByte(s[1], s[2]), HexByte(s[3], s[4]), HexByte(s[5], s[6]))
      case (Some(r), Some(g), Some(b)) => Some(Rgb(r, g, b))
      case _ => None
  }

  /** The PDF page is filled with the very colour the bitmap was captured on, so no edge of another colour shows. */
  lemma FillMatchesCaptureBackground(c: Canvas)
    ensures ParseHexColor(CaptureBackground) == Some(NewPdf(c).fill)
  {
  }

  /** The file a job delivers, or None when it fails: any step threw, or the PNG blob came back empty. */
  function JobResult(job: Job, capture: Capture): Option<Artifact>
  {
    match capture
    case Threw => None
    case Rendered(c, blobProduced) =>
      match job.kind
      case Pdf => Some(PdfFile(FileName(job.lang, Pdf), NewPdf(c)))
      case Png => if blobProduced then Some(PngFile(FileName(job.lang, Png), c.width, c.height)) else None
  }

  function ArtifactName(a: Artifact): string
  {
    match a
    case PdfFile(name, _) => name
    case PngFile(name, _, _) => name
  }

  /** A job fails exactly when a step threw or a PNG blob was missing; otherwise it delivers a file of its kind, named for its language and kind, whose size is the bitmap's (for a PDF page, each side capped at MaxPagePx). */
  lemma JobResultSpec(job: Job, capture: Capture)
    ensures JobResult(job, capture).None? <==>
            capture.Threw? || (job.kind == Png && !capture.blobProduced)
    ensures JobResult(job, capture).Some? ==>
            var a, c := JobResult(job, capture).value, capture.canvas;
            ParseFileName(ArtifactName(a)) == Some((job.lang, job.kind)) &&
            (job.kind == Pdf <==> a.PdfFile?) &&
            (a.PdfFile? ==> a.document.page == Size(Min(c.width, MaxPagePx), Min(c.height, MaxPagePx))) &&
            (a.PngFile? ==> a.width == c.width && a.height == c.height)
  {
  }

  /** Exporting the same bitmap in the two languages yields the same outcome and the same file apart from a name that differs only in its language segment. */
  lemma LanguageChangesOnlyName(kind: ExportKind, capture: Capture)
    ensures var zh, en := JobResult(Job(kind, Zh), capture), JobResult(Job(kind, En), capture);
      zh.Some? == en.Some? &&
      (zh.Some? ==> ArtifactName(zh.value) == FileName(Zh, kind) &&
                    ArtifactName(en.value) == FileName(En, kind) &&
                    (kind == Pdf ==> zh.value.document == en.value.document) &&
                    (kind == Png ==> zh.value.width == en.value.width && zh.value.height == en.value.height))
  {
  }

  /** Exporting an image while the language is English downloads `Gao_Jie_Resume_en.png`. */
  lemma EnglishImageName(c: Canvas)
    ensures JobResult(Job(Png, En), Rendered(c, true)) == Some(PngFile("Gao_Jie_Resume_en.png", c.width, c.height))
  {
    var name := "Gao_Jie_Resume_en.png";
    assert name[..|NamePrefix|] == NamePrefix;
    assert name[|NamePrefix|..|NamePrefix| + 2] == "en";
    assert name[|NamePrefix| + 2..] == ".png";
    assert ParseFileName(name) == Some((En, Png));
    ParseFileNameSound(name);
  }
}
